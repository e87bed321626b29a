/** The whole block layer against a model that knows no blocks: a file is a size
    and a finite map from offsets to bytes. */
module FlatFiles {
  import opened ZoneTree
  import opened Disks
  import opened Truncation
  import opened FileDev

  datatype FlatFile = FlatFile(content: map<int, int>, size: nat, kind: Kind)

  datatype Op =
    | Read(f: nat, pos: nat, count: nat)
    | Write(f: nat, pos: nat, append: bool, data: seq<byte>)
    | Erase(f: nat, busy: seq<bool>)      // the last link is gone: truncate

  /** What a caller sees: the bytes read, or how many bytes were accepted. */
  datatype Out = Bytes(data: seq<int>) | Accepted(n: nat) | Done

  function At(file: FlatFile, o: int): int { if o in file.content then file.content[o] else 0 }

  predicate InDomain(files: seq<FlatFile>, op: Op) {
    && op.f < |files|
    && match op
       case Read(_, pos, count) => pos + count <= MAX_SIZE
       case Write(f, pos, append, data) => (if append then files[f].size else pos) + |data| <= MAX_SIZE
       case Erase(_, _) => true
  }

  function Start(files: seq<FlatFile>, op: Op): nat
    requires op.Write? && op.f < |files|
  {
    if op.append then files[op.f].size else op.pos
  }

  /** `content` with `data` laid over it from offset `start` on. */
  function Overlay(content: map<int, int>, start: nat, data: seq<byte>): (r: map<int, int>)
    ensures forall o :: start <= o < start + |data| ==> o in r && r[o] == data[o - start]
    ensures forall o :: !(start <= o < start + |data|) ==>
      (o in r <==> o in content) && (o in content ==> r[o] == content[o])
  {
    if data == [] then content
    else
      var n := |data| - 1;
      Overlay(content, start, data[..n])[start + n := data[n]]
  }

  /** One operation on flat files. */
  function FlatStep(files: seq<FlatFile>, op: Op, out: Out): seq<FlatFile> {
    if op.f >= |files| then files
    else match op
    case Read(_, _, _) => files
    case Write(f, _, _, data) =>
      if !out.Accepted? || out.n == 0 || out.n > |data| then files
      else
        var start := Start(files, op);
        files[f := FlatFile(Overlay(files[f].content, start, data[..out.n]),
                            if start + out.n > files[f].size then start + out.n else files[f].size, files[f].kind)]
    case Erase(f, _) => if files[f].kind == Other then files else files[f := FlatFile(map[], 0, files[f].kind)]
  }

  function FlatRun(files: seq<FlatFile>, ops: seq<Op>, outs: seq<Out>): seq<FlatFile>
    requires |outs| == |ops|
    decreases |ops|
  {
    if ops == [] then files
    else var n := |ops| - 1; FlatStep(FlatRun(files, ops[..n], outs[..n]), ops[n], outs[n])
  }

  /** The result is one that flat files could give. */
  predicate Honest(files: seq<FlatFile>, op: Op, out: Out) {
    match op
    case Read(f, pos, count) => f < |files| && out == Bytes(seq(count, i => At(files[f], pos + i)))
    case Write(_, _, _, data) => out.Accepted? && out.n <= |data|
    case Erase(_, _) => out == Done
  }

  ghost predicate Shows(s: State, files: seq<FlatFile>) {
    && |files| == |s.inodes|
    && (forall g :: 0 <= g < |files| ==> files[g].size == s.inodes[g].size && files[g].kind == s.inodes[g].kind)
    && (forall g: nat, o: nat :: g < |files| && o / BLOCK_SIZE < MAX_BLOCKS ==> FileByte(s, g, o) == At(files[g], o))
  }

  /** The device and who uses its zones. */
  datatype Device = Device(s: State, own: map<int, Loc>)

  ghost function Now(d: Disk): Device
    reads d, d.bits, d.blocks, d.inodes
  {
    Device(d.Snap(), d.own)
  }

  /** Every data zone is in use. */
  ghost predicate Full(v: Device) { forall y :: IsDataZone(v.s, y) ==> y in v.own }

  ghost predicate Sees(v: Device, files: seq<FlatFile>) { Owned(v.s, v.own) && Shows(v.s, files) }

  /** An operation gave an honest result, did to the device what it should, and a write that fell short
      left the device full. */
  ghost predicate Correct(files: seq<FlatFile>, op: Op, out: Out, after: Device) {
    && Honest(files, op, out) && Sees(after, FlatStep(files, op, out))
    && (op.Write? && out.n < |op.data| ==> Full(after))
  }

  /** Carries out one operation on the device. */
  method Execute(d: Disk, op: Op, ghost files: seq<FlatFile>) returns (out: Out)
    requires d.Valid() && Shows(d.Snap(), files) && InDomain(files, op)
    modifies d, d.bits, d.blocks, d.inodes
    ensures d.Valid() && Shows(d.Snap(), FlatStep(files, op, out)) && Correct(files, op, out, Now(d))
  {
    ghost var s, own := d.Snap(), d.own;
    match op {
      case Read(f, pos, count) =>
        var filp := new File(pos, false);
        var r, buf := FileRead(d, f, filp, count);
        assert buf == seq(count, i => At(files[f], pos + i));
        out := Bytes(buf);
      case Write(f, pos, append, data) =>
        var filp := new File(pos, append);
        var r, i := FileWrite(d, f, filp, data, |data|);
        out := Accepted(if r < 0 then 0 else r);
        WriteShows(s, d.Snap(), files, op, i);
      case Erase(f, busy) =>
        Truncate(d, f, busy);
        out := Done;
        EraseShows(s, own, d.Snap(), d.own, files, f);
    }
  }

  lemma WriteShows(s: State, t: State, files: seq<FlatFile>, op: Op, n: nat)
    requires op.Write? && op.f < |files| && Shows(s, files) && n <= |op.data|
    requires Overlaid(s, t, op.f, Start(files, op), op.data[..n])
    ensures Shows(t, FlatStep(files, op, Accepted(n)))
  {
  }

  lemma EraseShows(s: State, own: map<int, Loc>, t: State, own': map<int, Loc>, files: seq<FlatFile>, f: nat)
    requires f < |files| && Shows(s, files) && Owned(s, own) && Owned(t, own')
    requires |t.inodes| == |s.inodes| && t.inodes[f].kind == s.inodes[f].kind
    requires t.inodes[f].kind == Other ==> t == s
    requires t.inodes[f].kind != Other ==> OthersKept(s, own, t, own', f) && t.inodes[f].size == 0
    requires t.inodes[f].kind != Other ==> forall i :: 0 <= i < 9 ==> t.inodes[f].zone[i] == 0
    ensures Shows(t, FlatStep(files, Erase(f, []), Done))
  {
    if t.inodes[f].kind != Other {
      EmptyTree(t, own', f);
      forall g: nat, o: nat | g < |files| && o / BLOCK_SIZE < MAX_BLOCKS
        ensures FileByte(t, g, o) == if g == f then 0 else At(files[g], o)
      {
        LeafLocWf(t, g, o / BLOCK_SIZE);
        if g != f { OthersKeepBytes(s, own, t, own', f, g, o); }
      }
    }
  }

  /** Every operation of a run was correct. */
  ghost predicate AllCorrect(files: seq<FlatFile>, ops: seq<Op>, outs: seq<Out>, trace: seq<Device>) {
    && |outs| == |trace| <= |ops|
    && forall i :: 0 <= i < |outs| ==> Correct(FlatRun(files, ops[..i], outs[..i]), ops[i], outs[i], trace[i])
  }

  lemma ExtendCorrect(files: seq<FlatFile>, ops: seq<Op>, outs: seq<Out>, trace: seq<Device>, out: Out, after: Device)
    requires AllCorrect(files, ops, outs, trace) && |outs| < |ops|
    requires Correct(FlatRun(files, ops[..|outs|], outs), ops[|outs|], out, after)
    ensures AllCorrect(files, ops, outs + [out], trace + [after])
    ensures FlatRun(files, ops[..|outs| + 1], outs + [out]) ==
      FlatStep(FlatRun(files, ops[..|outs|], outs), ops[|outs|], out)
  {
    hide Correct, FlatStep;
    var n, outs' := |outs|, outs + [out];
    assert ops[..n + 1][..n] == ops[..n];
    assert forall i :: 0 <= i <= n ==> outs'[..i] == outs[..i];
    assert outs[..n] == outs;
  }

  /** Whether the file exists and stays within the largest size. */
  method Fits(d: Disk, op: Op, ghost files: seq<FlatFile>) returns (fits: bool)
    requires d.Valid() && Shows(d.Snap(), files)
    ensures fits == InDomain(files, op)
  {
    if op.f >= d.inodes.Length { return false; }
    if op.Read? && op.pos + op.count > MAX_SIZE { return false; }
    if op.Write? && (if op.append then d.inodes[op.f].size else op.pos) + |op.data| > MAX_SIZE { return false; }
    return true;
  }

  lemma NothingRun(files: seq<FlatFile>, ops: seq<Op>)
    ensures AllCorrect(files, ops, [], []) && FlatRun(files, ops[..0], []) == files
  {
  }

  /** Any run of reads, writes and truncations on the device gives the results, and
      leaves the contents, that the same run gives on flat files; a write falls short
      only when the device is full.  It stops early only in front of an operation
      beyond the largest file size. */
  method Run(d: Disk, ops: seq<Op>, ghost files: seq<FlatFile>) returns (outs: seq<Out>, ghost trace: seq<Device>)
    requires d.Valid() && Shows(d.Snap(), files)
    modifies d, d.bits, d.blocks, d.inodes
    ensures d.Valid() && AllCorrect(files, ops, outs, trace) && (outs != [] ==> trace[|outs| - 1] == Now(d))
    ensures Shows(d.Snap(), FlatRun(files, ops[..|outs|], outs))
    ensures |outs| < |ops| ==> !InDomain(FlatRun(files, ops[..|outs|], outs), ops[|outs|])
  {
    hide FlatStep, Correct, Shows, AllCorrect;
    NothingRun(files, ops);
    outs, trace := [], [];
    while |outs| < |ops|
      invariant |outs| == |trace| <= |ops| && AllCorrect(files, ops, outs, trace)
      invariant outs != [] ==> trace[|outs| - 1] == Now(d)
      invariant d.Valid() && Shows(d.Snap(), FlatRun(files, ops[..|outs|], outs))
    {
      var op := ops[|outs|];
      ghost var now := FlatRun(files, ops[..|outs|], outs);
      var fits := Fits(d, op, now);
      if !fits { return; }
      var out := Execute(d, op, now);
      ExtendCorrect(files, ops, outs, trace, out, Now(d));
      outs, trace := outs + [out], trace + [Now(d)];
    }
  }

  /** Operation `op`, run on `files`, stores into or erases byte `o` of file `g`. */
  predicate Touches(files: seq<FlatFile>, op: Op, out: Out, g: nat, o: int) {
    && op.f == g < |files|
    && match op
       case Read(_, _, _) => false
       case Write(_, _, _, _) => out.Accepted? && out.n <= |op.data| && Start(files, op) <= o < Start(files, op) + out.n
       case Erase(_, _) => files[g].kind != Other
  }

  lemma {:induction false} RunLength(files: seq<FlatFile>, ops: seq<Op>, outs: seq<Out>)
    requires |outs| == |ops|
    ensures |FlatRun(files, ops, outs)| == |files|
    decreases |ops|
  {
    if ops != [] { RunLength(files, ops[..|ops| - 1], outs[..|ops| - 1]); }
  }

  lemma StepByte(files: seq<FlatFile>, op: Op, out: Out, g: nat, o: int)
    requires g < |files|
    ensures |FlatStep(files, op, out)| == |files|
    ensures At(FlatStep(files, op, out)[g], o) ==
      if !Touches(files, op, out, g, o) then At(files[g], o)
      else if op.Erase? then 0
      else op.data[o - Start(files, op)]
  {
  }

  /** Operation `k` is the last one that touches byte `o` of file `g`; -1 if none does. */
  ghost predicate LastTouch(files: seq<FlatFile>, ops: seq<Op>, outs: seq<Out>, g: nat, o: int, k: int)
    requires |outs| == |ops|
  {
    && -1 <= k < |ops|
    && (forall i :: k < i < |ops| ==> !Touches(FlatRun(files, ops[..i], outs[..i]), ops[i], outs[i], g, o))
    && (k >= 0 ==> Touches(FlatRun(files, ops[..k], outs[..k]), ops[k], outs[k], g, o))
  }

  lemma LastTouchBefore(files: seq<FlatFile>, ops: seq<Op>, outs: seq<Out>, g: nat, o: int, k: int)
    requires |outs| == |ops| && LastTouch(files, ops, outs, g, o, k) && k < |ops| - 1
    ensures LastTouch(files, ops[..|ops| - 1], outs[..|ops| - 1], g, o, k)
    ensures k >= 0 ==> ops[..|ops| - 1][..k] == ops[..k] && outs[..|ops| - 1][..k] == outs[..k]
  {
    hide FlatRun, Touches;
    var a, b := ops[..|ops| - 1], outs[..|ops| - 1];
    assert forall i :: 0 <= i < |a| ==> a[..i] == ops[..i] && b[..i] == outs[..i] && a[i] == ops[i] && b[i] == outs[i];
  }

  /** Byte `o` of file `g` shows the last operation that touched it: the byte that a
      write put there, zero after an erase, the initial byte if nothing touched it. */
  lemma {:induction false} LastOperationWins(files: seq<FlatFile>, ops: seq<Op>, outs: seq<Out>, g: nat, o: int, k: int)
    requires |outs| == |ops| && g < |files| && LastTouch(files, ops, outs, g, o, k)
    ensures |FlatRun(files, ops, outs)| == |files|
    ensures At(FlatRun(files, ops, outs)[g], o) ==
      if k < 0 then At(files[g], o)
      else if ops[k].Erase? then 0
      else ops[k].data[o - Start(FlatRun(files, ops[..k], outs[..k]), ops[k])]
    decreases |ops|
  {
    RunLength(files, ops, outs);
    if ops != [] {
      var n := |ops| - 1;
      RunLength(files, ops[..n], outs[..n]);
      StepByte(FlatRun(files, ops[..n], outs[..n]), ops[n], outs[n], g, o);
      if k < n {
        assert !Touches(FlatRun(files, ops[..n], outs[..n]), ops[n], outs[n], g, o);
        LastTouchBefore(files, ops, outs, g, o, k);
        hide FlatStep, Touches, Start, At, LastTouch;
        LastOperationWins(files, ops[..n], outs[..n], g, o, k);
      }
    }
  }
}
