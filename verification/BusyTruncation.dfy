/** Truncation beside other tasks (fs/truncate.c).  While a block is busy, truncate calls schedule between
    its walks, and others read, write and erase other files meanwhile. */
module BusyTruncation {
  import opened ZoneTree
  import opened Disks
  import opened Truncation
  import opened FileDev
  import opened FlatFiles

  /** The flat files are what the device shows, leaving out file `f`, which is being truncated. */
  ghost predicate ShowsBut(s: State, files: seq<FlatFile>, f: nat) {
    && f < |files| == |s.inodes|
    && (forall g :: 0 <= g < |files| && g != f ==>
      files[g].size == s.inodes[g].size && files[g].kind == s.inodes[g].kind)
    && (forall g: nat, o: nat :: g < |files| && g != f && o / BLOCK_SIZE < MAX_BLOCKS ==>
          FileByte(s, g, o) == At(files[g], o))
  }

  /** File `f` as the device has it. */
  ghost function Actual(s: State, f: nat): FlatFile
    requires f < |s.inodes|
  {
    FlatFile(map o: nat | o < MAX_SIZE && o / BLOCK_SIZE < MAX_BLOCKS :: FileByte(s, f, o),
             s.inodes[f].size, s.inodes[f].kind)
  }

  lemma ActualShows(s: State, files: seq<FlatFile>, f: nat)
    requires ShowsBut(s, files, f)
    ensures Shows(s, files[f := Actual(s, f)])
  {
    forall o: nat | o / BLOCK_SIZE < MAX_BLOCKS
      ensures FileByte(s, f, o) == At(Actual(s, f), o)
    {
      assert o < MAX_SIZE;
    }
  }

  lemma ForgetOne(s: State, files: seq<FlatFile>, f: nat, x: FlatFile)
    requires f < |files| && Shows(s, files[f := x])
    ensures ShowsBut(s, files, f) && s.inodes[f].size == x.size && s.inodes[f].kind == x.kind
  {
    var all := files[f := x];
    assert forall g :: 0 <= g < |files| && g != f ==> all[g] == files[g];
    assert all[f] == x;
  }

  /** A walk changes no file but its own. */
  lemma PrunedShows(s: State, own: map<int, Loc>, t: State, own': map<int, Loc>, files: seq<FlatFile>, f: nat)
    requires ShowsBut(s, files, f) && Owned(s, own) && Pruned(s, own, t, own', f)
    ensures ShowsBut(t, files, f)
  {
    hide Owned, FileByte;
    forall g: nat, o: nat | g < |files| && g != f && o / BLOCK_SIZE < MAX_BLOCKS
      ensures FileByte(t, g, o) == At(files[g], o)
    {
      OthersKeepBytes(s, own, t, own', f, g, o);
    }
  }

  /** An operation on another file does not depend on file `f` and does not change it. */
  lemma Beside(files: seq<FlatFile>, f: nat, x: FlatFile, op: Op, out: Out)
    requires f < |files| && op.f != f
    ensures FlatStep(files[f := x], op, out) == FlatStep(files, op, out)[f := x]
    ensures |FlatStep(files, op, out)| == |files| && FlatStep(files, op, out)[f] == files[f]
    ensures InDomain(files[f := x], op) == InDomain(files, op)
    ensures Honest(files[f := x], op, out) == Honest(files, op, out)
  {
    if op.f < |files| { assert files[f := x][op.f] == files[op.f]; }
  }

  /** What others did: operations on other files, each with an honest result. */
  ghost predicate Ran(files: seq<FlatFile>, ops: seq<Op>, outs: seq<Out>, f: nat) {
    |outs| == |ops| && forall i :: 0 <= i < |ops| ==>
      ops[i].f != f && Honest(FlatRun(files, ops[..i], outs[..i]), ops[i], outs[i])
  }

  lemma OneMore(files: seq<FlatFile>, ops: seq<Op>, outs: seq<Out>, f: nat, op: Op, out: Out)
    requires Ran(files, ops, outs, f) && op.f != f && Honest(FlatRun(files, ops, outs), op, out)
    ensures Ran(files, ops + [op], outs + [out], f)
    ensures FlatRun(files, ops + [op], outs + [out]) == FlatStep(FlatRun(files, ops, outs), op, out)
  {
    hide Honest, FlatStep;
    var more, results := ops + [op], outs + [out];
    assert more[..|ops|] == ops && results[..|outs|] == outs;
    assert forall i :: 0 <= i < |ops| ==> more[..i] == ops[..i] && results[..i] == outs[..i];
  }

  /** What runs while truncate waits: those of the operations that make sense and are not on file `f`,
      after what others did before. */
  method Schedule(d: Disk, f: nat, ops: seq<Op>, ghost files: seq<FlatFile>, was: seq<Op>, results: seq<Out>)
    returns (ran: seq<Op>, outs: seq<Out>)
    requires d.Valid() && f < |files| && Ran(files, was, results, f)
    requires ShowsBut(d.Snap(), FlatRun(files, was, results), f)
    modifies d, d.bits, d.blocks, d.inodes
    ensures d.Valid() && Ran(files, ran, outs, f) && ShowsBut(d.Snap(), FlatRun(files, ran, outs), f)
    ensures (d.inodes[f].size, d.inodes[f].kind) == old((d.inodes[f].size, d.inodes[f].kind))
  {
    RanLengths(files, was, results, f);
    assert f < d.inodes.Length;
    hide Honest, FlatStep, ShowsBut, Shows, Ran, FlatRun, Actual, InDomain;
    ran, outs := was, results;
    var k := 0;
    while k < |ops|
      invariant k <= |ops| && d.Valid() && f < d.inodes.Length
      invariant Ran(files, ran, outs, f) && |outs| == |ran| && ShowsBut(d.Snap(), FlatRun(files, ran, outs), f)
      invariant (d.inodes[f].size, d.inodes[f].kind) == old((d.inodes[f].size, d.inodes[f].kind))
    {
      var op := ops[k];
      if op.f != f {
        ghost var now, x := FlatRun(files, ran, outs), Actual(d.Snap(), f);
        var done, out := Attempt(d, f, op, now, x);
        if done {
          OneMore(files, ran, outs, f, op, out);
          ran, outs := ran + [op], outs + [out];
        }
      }
      k := k + 1;
    }
  }

  /** One operation on another file. */
  method Attempt(d: Disk, f: nat, op: Op, ghost now: seq<FlatFile>, ghost x: FlatFile) returns (done: bool, out: Out)
    requires d.Valid() && f < d.inodes.Length && op.f != f && ShowsBut(d.Snap(), now, f) && x == Actual(d.Snap(), f)
    modifies d, d.bits, d.blocks, d.inodes
    ensures d.Valid() && f < d.inodes.Length
    ensures done ==> Honest(now, op, out) && ShowsBut(d.Snap(), FlatStep(now, op, out), f)
    ensures !done ==> ShowsBut(d.Snap(), now, f)
    ensures (d.inodes[f].size, d.inodes[f].kind) == old((d.inodes[f].size, d.inodes[f].kind))
  {
    ghost var all := now[f := x];
    ActualShows(d.Snap(), now, f);
    assert (x.size, x.kind) == (d.inodes[f].size, d.inodes[f].kind) && f < |now|;
    hide Honest, FlatStep, ShowsBut, Shows, Actual, InDomain;
    done := Fits(d, op, all);
    out := Done;
    if done {
      out := Execute(d, op, all);
      Beside(now, f, x, op, out);
      ForgetOne(d.Snap(), FlatStep(now, op, out), f, x);
    }
  }

  lemma Emptied(s: State, own: map<int, Loc>, files: seq<FlatFile>, f: nat)
    requires Owned(s, own) && ShowsBut(s, files, f) && s.inodes[f].size == 0
    requires forall i :: 0 <= i < 9 ==> Ptr(s, Top(f, i)) == 0
    ensures Shows(s, files[f := FlatFile(map[], 0, s.inodes[f].kind)])
    ensures forall z :: z in own ==> own[z].f != f
  {
    EmptyTree(s, own, f);
    hide Owned;
    forall o: nat | o / BLOCK_SIZE < MAX_BLOCKS
      ensures FileByte(s, f, o) == 0
    {
      LeafLocWf(s, f, o / BLOCK_SIZE);
    }
  }

  lemma Cleared(s: State, own: map<int, Loc>, files: seq<FlatFile>, f: nat)
    requires Owned(s, own) && ShowsBut(s, files, f) && forall i :: 0 <= i < 9 ==> Ptr(s, Top(f, i)) == 0
    ensures var t := s.(inodes := s.inodes[f := s.inodes[f].(size := 0)]);
      && Owned(t, own) && ShowsBut(t, files, f) && forall i :: 0 <= i < 9 ==> Ptr(t, Top(f, i)) == 0
  {
    SizesDoNotPoint(s, own, f, 0);
    hide Owned, Ptr, FileByte;
    forall i | 0 <= i < 9
      ensures WfLoc(s, Top(f, i))
    {
    }
  }

  lemma {:induction false} Others(files: seq<FlatFile>, ran: seq<Op>, outs: seq<Out>, f: nat)
    requires f < |files| && |outs| == |ran| && forall i :: 0 <= i < |ran| ==> ran[i].f != f
    ensures |FlatRun(files, ran, outs)| == |files| && FlatRun(files, ran, outs)[f] == files[f]
    decreases |ran|
  {
    hide FlatStep, Honest, InDomain;
    if ran != [] {
      var n := |ran| - 1;
      Others(files, ran[..n], outs[..n], f);
      Beside(FlatRun(files, ran[..n], outs[..n]), f, files[f], ran[n], outs[n]);
    }
  }

  /** Whatever others do to other files while truncate waits for busy blocks, in the end file `f` is empty and
      owns no zone, and every other file shows what their operations gave on flat files. */
  method TruncateAmong(d: Disk, f: nat, busy: seq<bool>, others: seq<seq<Op>>, ghost files: seq<FlatFile>)
    returns (ran: seq<Op>, outs: seq<Out>)
    requires d.Valid() && f < d.inodes.Length && Shows(d.Snap(), files)
    modifies d, d.bits, d.blocks, d.inodes
    ensures d.Valid() && Ran(files, ran, outs, f)
    ensures Shows(d.Snap(), FlatStep(FlatRun(files, ran, outs), Erase(f, busy), Done))
    ensures files[f].kind != Other ==> forall z :: z in d.own ==> d.own[z].f != f
  {
    ran, outs := [], [];
    if d.inodes[f].kind == Other { return; }
    ghost var kind := files[f].kind;
    assert files[f := files[f]] == files;
    ForgetOne(d.Snap(), files, f, files[f]);
    hide Honest, ShowsBut, Shows, Ran, Ptr, Owned, Pruned, FlatRun;
    var rest, blockBusy, turn := busy, true, 0;
    NothingRan(files, f);
    RanLengths(files, [], [], f);
    while blockBusy
      invariant d.Valid() && f < d.inodes.Length && d.inodes[f].kind == kind && turn >= 0
      invariant |outs| == |ran| && (forall i :: 0 <= i < |ran| ==> ran[i].f != f)
      invariant Ran(files, ran, outs, f) && ShowsBut(d.Snap(), FlatRun(files, ran, outs), f)
      invariant !blockBusy ==> forall i :: 0 <= i < 9 ==> Ptr(d.Snap(), Top(f, i)) == 0
      decreases |rest|, blockBusy
    {
      ghost var s, own := d.Snap(), d.own;
      blockBusy, rest := TruncatePass(d, f, rest);
      AfterPass(s, own, d.Snap(), d.own, FlatRun(files, ran, outs), f);
      if blockBusy {
        ran, outs := Schedule(d, f, if turn < |others| then others[turn] else [], files, ran, outs);
        RanLengths(files, ran, outs, f);
        turn := turn + 1;
      }
    }
    Cleared(d.Snap(), d.own, FlatRun(files, ran, outs), f);
    ghost var t := d.Snap();
    d.inodes[f] := d.inodes[f].(size := 0);
    assert d.Snap() == t.(inodes := t.inodes[f := t.inodes[f].(size := 0)]);
    Emptied(d.Snap(), d.own, FlatRun(files, ran, outs), f);
    Others(files, ran, outs, f);
  }

  lemma NothingRan(files: seq<FlatFile>, f: nat)
    ensures Ran(files, [], [], f) && FlatRun(files, [], []) == files
  {
  }

  lemma RanLengths(files: seq<FlatFile>, ran: seq<Op>, outs: seq<Out>, f: nat)
    requires Ran(files, ran, outs, f)
    ensures |outs| == |ran| && forall i :: 0 <= i < |ran| ==> ran[i].f != f
  {
  }

  lemma AfterPass(s: State, own: map<int, Loc>, t: State, own': map<int, Loc>, files: seq<FlatFile>, f: nat)
    requires ShowsBut(s, files, f) && Owned(s, own) && f < |s.inodes| && Pruned(s, own, t, own', f)
    ensures Owned(t, own') && ShowsBut(t, files, f) && f < |t.inodes| == |s.inodes|
    ensures (t.inodes[f].size, t.inodes[f].kind) == (s.inodes[f].size, s.inodes[f].kind)
  {
    PrunedShows(s, own, t, own', files, f);
  }
}
