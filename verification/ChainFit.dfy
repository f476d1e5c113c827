/** What the next filter of src/core/ngx_output_chain.c can take: buffers of the kinds that the context
    says it needs. */
module ChainFit {
  import opened ChainBufs
  import opened ChainState

  // ctx->sendfile, ctx->need_in_memory and ctx->need_in_temp
  datatype Need = Need(sendfile: bool, inMemory: bool, inTemp: bool)

  // A buffer that only marks something; or one that lies in memory, unless the next filter sends files,
  // lies in memory if that is needed, may be written to if that is needed, and has a file part only if
  // the next filter sends files.
  ghost predicate Suits(b: Buf, need: Need) {
    || ((b.flush || b.lastBuf || b.sync) && !(b.temporary || b.memory || b.mmap || b.inFile))
    || (&& (need.sendfile || b.temporary || b.memory || b.mmap)
        && (need.inMemory ==> b.temporary || b.memory || b.mmap)
        && (need.inTemp ==> !b.memory && !b.mmap)
        && (!need.sendfile ==> !b.inFile))
  }

  // Memory of the context itself.
  ghost predicate Clean(b: Buf) { b.temporary && !b.memory && !b.mmap }

  ghost predicate KeptOk(bufs: seq<Buf>, tag: int, r: Ref) {
    0 <= r < |bufs| && (Own(bufs[r], tag) ==> Clean(bufs[r]))
  }

  ghost predicate HandedOk(bufs: seq<Buf>, need: Need, tag: int, r: Ref) {
    KeptOk(bufs, tag, r) && Suits(bufs[r], need)
  }

  // Everything handed on, or about to be, suits the next filter.
  ghost predicate FitInv(s: State, need: Need, tag: int) {
    && (forall r {:trigger HandedOk(s.bufs, need, tag, r)} :: r in s.down || r in s.out ==> HandedOk(s.bufs, need, tag, r))
    && (forall r {:trigger KeptOk(s.bufs, tag, r)} :: r in s.busy || r in s.free ==> KeptOk(s.bufs, tag, r))
  }

  // One buffer changes that is not handed on, and is not the context's, or remains clean.
  lemma FitChanges(s: State, need: Need, tag: int, x: Ref, b: Buf)
    requires FitInv(s, need, tag) && 0 <= x < |s.bufs| && x !in s.down && x !in s.out && (Own(b, tag) ==> Clean(b))
    ensures FitInv(s.(bufs := s.bufs[x := b]), need, tag)
  {
    var t := s.(bufs := s.bufs[x := b]);
    forall r | r in t.down || r in t.out ensures HandedOk(t.bufs, need, tag, r) { assert HandedOk(s.bufs, need, tag, r); }
    forall r | r in t.busy || r in t.free ensures KeptOk(t.bufs, tag, r) { assert KeptOk(s.bufs, tag, r); }
  }

  // One buffer more is handed on.
  lemma FitAdds(s: State, need: Need, tag: int, x: Ref)
    requires FitInv(s, need, tag) && HandedOk(s.bufs, need, tag, x)
    ensures FitInv(s.(out := s.out + [x]), need, tag)
  {
    var t := s.(out := s.out + [x]);
    forall r | r in t.down || r in t.out ensures HandedOk(t.bufs, need, tag, r) { assert r != x ==> HandedOk(s.bufs, need, tag, r); }
  }

  // New buffers join the others.
  lemma FitGrows(s: State, need: Need, tag: int, more: seq<Buf>)
    requires FitInv(s, need, tag)
    ensures FitInv(s.(bufs := s.bufs + more), need, tag)
  {
    var t := s.(bufs := s.bufs + more);
    forall r | r in t.down || r in t.out ensures HandedOk(t.bufs, need, tag, r) { assert HandedOk(s.bufs, need, tag, r); }
    forall r | r in t.busy || r in t.free ensures KeptOk(t.bufs, tag, r) { assert KeptOk(s.bufs, tag, r); }
  }
}
