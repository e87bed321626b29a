/** The line discipline of kernel/chr_drv/tty_io.c on plain sequences of characters. */
module LineEdit {

  const TTY_BUF_SIZE: int := 1024
  const ROOM: int := 1023              // a ring with as many characters is full

  /** The flags and control characters of a terminal that matter here. */
  datatype Mode = Mode(
    canon: bool, isig: bool, echo: bool, echoctl: bool, icrnl: bool, igncr: bool, inlcr: bool, iuclc: bool,
    intr: int, quit: int, erase: int, kill: int, eof: int, start: int, stop: int, susp: int)

  /** The rings by their contents, what was echoed, and the signals sent. */
  datatype Tty = Tty(read: seq<int>, sec: seq<int>, data: int, out: seq<int>, stopped: bool, signals: seq<int>)

  predicate Ends(m: Mode, c: int) { c == 10 || c == m.eof }

  /** What PUTCH makes of a ring: a full one becomes empty. */
  function PutRing(s: seq<int>, c: int): seq<int> { if |s| < ROOM then s + [c] else [] }

  datatype Input = Ignored | Char(c: int)

  function Translate(m: Mode, c: int): Input {
    if c == 13 && !m.icrnl && m.igncr then Ignored
    else
      var d := if c == 13 && m.icrnl then 10 else if c == 10 && m.inlcr then 13 else c;
      Char(if m.iuclc && 'A' as int <= d <= 'Z' as int then d + 32 else d)
  }

  /** Where the unfinished line starts. */
  function LineStart(m: Mode, s: seq<int>): (k: nat)
    ensures k <= |s| && (k > 0 ==> Ends(m, s[k - 1])) && forall i :: k <= i < |s| ==> !Ends(m, s[i])
  {
    if s == [] || Ends(m, s[|s| - 1]) then |s| else LineStart(m, s[..|s| - 1])
  }

  function Rub(c: int): seq<int> { if c < 32 then [127, 127] else [127] }

  /** The echo of erasing `s` from its end on. */
  function Rubs(s: seq<int>): seq<int> {
    if s == [] then [] else Rub(s[|s| - 1]) + Rubs(s[..|s| - 1])
  }

  function Echo(m: Mode, c: int): seq<int> {
    if c == 10 then [10, 13]
    else if c < 32 then (if m.echoctl then ['^' as int, c + 64] else [])
    else [c]
  }

  predicate Kills(m: Mode, c: int) { m.canon && c == m.kill }
  predicate Erases(m: Mode, c: int) { m.canon && c != m.kill && c == m.erase }
  predicate Flows(m: Mode, c: int) { m.canon && c != m.kill && c != m.erase && (c == m.stop || c == m.start) }
  predicate Signals(m: Mode, c: int) { m.isig && (c == m.intr || c == m.quit || c == m.susp) }

  /** One turn of copy_to_cooked. */
  function Cook1(m: Mode, t: Tty): Tty
    requires t.read != []
  {
    var u := t.(read := t.read[1..]);
    match Translate(m, t.read[0])
    case Ignored => u
    case Char(c) =>
      if Kills(m, c) then
        var k := LineStart(m, t.sec);
        u.(sec := t.sec[..k], out := if m.echo then t.out + Rubs(t.sec[k..]) else t.out)
      else if Erases(m, c) then
        if t.sec == [] || Ends(m, t.sec[|t.sec| - 1]) then u
        else
          u.(sec := t.sec[..|t.sec| - 1], out := if m.echo then t.out + Rub(t.sec[|t.sec| - 1]) else t.out)
      else if Flows(m, c) then u.(stopped := c == m.stop)
      else if Signals(m, c) then u.(signals := t.signals + [c])
      else
        u.(data := t.data + (if Ends(m, c) then 1 else 0),
           out := if m.echo then t.out + Echo(m, c) else t.out,
           sec := PutRing(t.sec, c))
  }

  /** copy_to_cooked */
  function CookAll(m: Mode, t: Tty): Tty
    decreases |t.read|
  {
    if t.read == [] || |t.sec| >= ROOM then t else CookAll(m, Cook1(m, t))
  }

  // ---------------------------------------------------------------- reading

  /** How many characters the inner loop of tty_read takes, and whether the last one is an end of file. */
  datatype Taken = Taken(n: nat, atEof: bool)

  function Take(m: Mode, s: seq<int>, nr: int): (r: Taken)
    requires s != [] && nr > 0
    ensures 0 < r.n <= |s| && r.n <= nr
    ensures r.atEof <==> m.canon && s[r.n - 1] == m.eof
    ensures forall i :: 0 <= i < r.n - 1 ==> !(m.canon && s[i] == m.eof)
    ensures !r.atEof ==> r.n == nr || r.n == |s|
  {
    if m.canon && s[0] == m.eof then Taken(1, true)
    else if nr == 1 || |s| == 1 then Taken(1, false)
    else var r := Take(m, s[1..], nr - 1); Taken(r.n + 1, r.atEof)
  }

  /** The reader sleeps on. */
  predicate Waits(m: Mode, t: Tty) { t.sec == [] || (m.canon && |t.read| < ROOM && t.data == 0) }

  function Lines(m: Mode, s: seq<int>): nat {
    if s == [] then 0 else Lines(m, s[..|s| - 1]) + if Ends(m, s[|s| - 1]) then 1 else 0
  }

  lemma {:induction false} LinesSplit(m: Mode, a: seq<int>, b: seq<int>)
    ensures Lines(m, a + b) == Lines(m, a) + Lines(m, b)
  {
    if b == [] {
      assert a + b == a;
    } else {
      LinesSplit(m, a, b[..|b| - 1]);
      assert (a + b)[..|a + b| - 1] == a + b[..|b| - 1];
    }
  }

  lemma {:induction false} NoLines(m: Mode, s: seq<int>)
    requires forall i :: 0 <= i < |s| ==> !Ends(m, s[i])
    ensures Lines(m, s) == 0
  {
    if s != [] { NoLines(m, s[..|s| - 1]); }
  }

  lemma {:induction false} SomeLine(m: Mode, s: seq<int>)
    requires Lines(m, s) > 0
    ensures exists i :: 0 <= i < |s| && Ends(m, s[i])
  {
    if !Ends(m, s[|s| - 1]) {
      SomeLine(m, s[..|s| - 1]);
      var i :| 0 <= i < |s| - 1 && Ends(m, s[..|s| - 1][i]);
      assert Ends(m, s[i]);
    } else {
      assert Ends(m, s[|s| - 1]);
    }
  }

  // ---------------------------------------------------------------- sessions

  /** `taken` is all that readers took from the ring, `typed` all that copy_to_cooked consumed. */
  datatype Session = Session(t: Tty, taken: seq<int>, typed: seq<int>)

  datatype Event = Key(c: int) | Cook | Read(nr: int)

  function Step(m: Mode, s: Session, e: Event): Session {
    match e
    case Key(c) => s.(t := s.t.(read := PutRing(s.t.read, c)))
    case Cook =>
      if s.t.read == [] || |s.t.sec| >= ROOM then s
      else s.(t := Cook1(m, s.t), typed := s.typed + [s.t.read[0]])
    case Read(nr) =>
      if nr <= 0 || Waits(m, s.t) then s
      else
        var n := Take(m, s.t.sec, nr).n;
        s.(t := s.t.(sec := s.t.sec[n..], data := s.t.data - Lines(m, s.t.sec[..n])), taken := s.taken + s.t.sec[..n])
  }

  function Run(m: Mode, es: seq<Event>): Session {
    if es == [] then Session(Tty([], [], 0, [], false, []), [], [])
    else Step(m, Run(m, es[..|es| - 1]), es[|es| - 1])
  }

  /** `data` counts the ends of line in the ring, and no ring overflows unnoticed. */
  ghost predicate Sound(m: Mode, t: Tty) { t.data == Lines(m, t.sec) && |t.sec| <= ROOM && |t.read| <= ROOM }

  lemma CutKeepsLines(m: Mode, s: seq<int>)
    ensures Lines(m, s[..LineStart(m, s)]) == Lines(m, s)
  {
    var k := LineStart(m, s);
    assert s == s[..k] + s[k..];
    LinesSplit(m, s[..k], s[k..]);
    NoLines(m, s[k..]);
  }

  lemma OneMoreLine(m: Mode, s: seq<int>, c: int)
    ensures Lines(m, s + [c]) == Lines(m, s) + if Ends(m, c) then 1 else 0
  {
    assert (s + [c])[..|s|] == s;
  }

  lemma CookIsSound(m: Mode, t: Tty)
    requires Sound(m, t) && t.read != [] && |t.sec| < ROOM
    ensures Sound(m, Cook1(m, t))
  {
    hide Translate, LineStart, Kills, Erases, Flows, Signals, Rubs, Rub, Echo, Ends, Lines;
    CutKeepsLines(m, t.sec);
    NothingLines(m);
    if t.sec != [] { LastLine(m, t.sec); }
    var i := Translate(m, t.read[0]);
    if i.Char? { OneMoreLine(m, t.sec, i.c); }
  }

  lemma NothingLines(m: Mode)
    ensures Lines(m, []) == 0
  {
  }

  lemma LastLine(m: Mode, s: seq<int>)
    requires s != []
    ensures Lines(m, s) == Lines(m, s[..|s| - 1]) + if Ends(m, s[|s| - 1]) then 1 else 0
  {
  }

  lemma StepIsSound(m: Mode, s: Session, e: Event)
    requires Sound(m, s.t)
    ensures Sound(m, Step(m, s, e).t)
  {
    match e
    case Key(c) =>
    case Cook => if s.t.read != [] && |s.t.sec| < ROOM { CookIsSound(m, s.t); }
    case Read(nr) =>
      if nr > 0 && !Waits(m, s.t) {
        var n := Take(m, s.t.sec, nr).n;
        assert s.t.sec == s.t.sec[..n] + s.t.sec[n..];
        LinesSplit(m, s.t.sec[..n], s.t.sec[n..]);
      }
  }

  lemma {:induction false} RunIsSound(m: Mode, es: seq<Event>)
    ensures Sound(m, Run(m, es).t)
  {
    if es != [] {
      RunIsSound(m, es[..|es| - 1]);
      StepIsSound(m, Run(m, es[..|es| - 1]), es[|es| - 1]);
    }
  }

  // ---------------------------------------------------- what line editing is

  /** The line editor without any reader: the text that the characters `s` leave. */
  function Edit(m: Mode, s: seq<int>): seq<int> {
    if s == [] then [] else EditOne(m, Edit(m, s[..|s| - 1]), s[|s| - 1])
  }

  function EditOne(m: Mode, text: seq<int>, raw: int): seq<int> {
    match Translate(m, raw)
    case Ignored => text
    case Char(c) =>
      if Kills(m, c) then text[..LineStart(m, text)]
      else if Erases(m, c) then (if LineStart(m, text) == |text| then text else text[..|text| - 1])
      else if Flows(m, c) || Signals(m, c) then text
      else text + [c]
  }

  /** The editing character `raw` would reach what a reader has taken already. */
  predicate Reaches(m: Mode, taken: seq<int>, sec: seq<int>, raw: int) {
    var start := LineStart(m, taken + sec);
    match Translate(m, raw)
    case Ignored => false
    case Char(c) => (Kills(m, c) && start < |taken|) || (Erases(m, c) && sec == [] && start < |taken|)
  }

  lemma StartSplit(m: Mode, a: seq<int>, b: seq<int>)
    ensures LineStart(m, a + b) == if LineStart(m, b) > 0 then |a| + LineStart(m, b) else LineStart(m, a)
  {
    var s, k, l := a + b, LineStart(m, a + b), LineStart(m, b);
    if l > 0 {
      assert s[|a| + l - 1] == b[l - 1];
      assert forall i :: |a| + l <= i < |s| ==> s[i] == b[i - |a|];
    } else {
      assert forall i :: |a| <= i < |s| ==> s[i] == b[i - |a|];
      assert forall i :: 0 <= i < |a| ==> s[i] == a[i];
    }
  }

  /** Consuming one character edits the text (what was taken, then the ring) like the line editor, if
      and only if the character does not reach what was taken. */
  lemma CookEditsIff(m: Mode, t: Tty, taken: seq<int>)
    requires t.read != [] && |t.sec| < ROOM
    ensures taken + Cook1(m, t).sec == EditOne(m, taken + t.sec, t.read[0]) <==> !Reaches(m, taken, t.sec, t.read[0])
  {
    hide Translate, LineStart, Kills, Erases, Flows, Signals, Rubs, Rub, Echo;
    match Translate(m, t.read[0])
    case Ignored =>
    case Char(c) =>
      if Kills(m, c) {
        KillEditsIff(m, taken, t.sec);
      } else if Erases(m, c) {
        EraseEditsIff(m, taken, t.sec);
      } else if !Flows(m, c) && !Signals(m, c) {
        assert taken + (t.sec + [c]) == taken + t.sec + [c];
      }
  }

  lemma KillEditsIff(m: Mode, a: seq<int>, b: seq<int>)
    ensures a + b[..LineStart(m, b)] == (a + b)[..LineStart(m, a + b)] <==> LineStart(m, a + b) >= |a|
  {
    StartSplit(m, a, b);
    hide LineStart;
    var k := LineStart(m, a + b);
    if k >= |a| {
      assert (a + b)[..k] == a + b[..k - |a|];
    } else {
      assert |a + b[..LineStart(m, b)]| >= |a| > |(a + b)[..k]|;
    }
  }

  lemma EraseEditsIff(m: Mode, a: seq<int>, b: seq<int>)
    ensures var cut := if b == [] || Ends(m, b[|b| - 1]) then b else b[..|b| - 1];
            var text := a + b;
      a + cut == (if LineStart(m, text) == |text| then text else text[..|text| - 1])
      <==> !(b == [] && LineStart(m, text) < |a|)
  {
    var text := a + b;
    if b != [] {
      assert text[|text| - 1] == b[|b| - 1];
      assert text[..|text| - 1] == a + b[..|b| - 1];
    } else {
      assert text == a;
    }
  }

  /** No erase or kill ever meets a line that was taken in part. */
  ghost predicate Undisturbed(m: Mode, es: seq<Event>) {
    es == [] ||
    (Undisturbed(m, es[..|es| - 1]) &&
     var s := Run(m, es[..|es| - 1]);
     es[|es| - 1] == Cook && s.t.read != [] && |s.t.sec| < ROOM ==> !Reaches(m, s.taken, s.t.sec, s.t.read[0]))
  }

  /** The guard is needed: a reader that takes "a", newline, "b" has taken a line in part, since it only
      stops when the ring is empty; the "b" can then not be erased any more. */
  lemma TakenPartStays(m: Mode, t: Tty)
    requires m.canon && m.erase == 127 && m.kill == 21 && m.eof == 4
    requires t == Tty([127], [], 0, [], false, [])
    ensures Take(m, [97, 10, 98], 100) == Taken(3, false)
    ensures [97, 10, 98] + Cook1(m, t).sec != EditOne(m, [97, 10, 98], 127)
  {
    assert [97, 10, 98][1..] == [10, 98] && [10, 98][1..] == [98];
    assert Take(m, [10, 98], 99) == Taken(2, false);
    assert [97, 10, 98] + [] == [97, 10, 98] && [97, 10, 98][..2] == [97, 10];
    CookEditsIff(m, t, [97, 10, 98]);
  }

  // A line once taken in part and then reached stays longer than the edited one, and a line end makes
  // the difference final.

  /** Of the unfinished line a part was taken, and the edited line is shorter than it, though no shorter
      than what the ring has of it. */
  ghost predicate Behind(m: Mode, taken: seq<int>, sec: seq<int>, text: seq<int>) {
    var k := LineStart(m, taken + sec);
    && k < |taken| && LineStart(m, text) == k && text[..k] == (taken + sec)[..k]
    && k + |sec| <= |text| < |taken| + |sec|
  }

  /** The first `i` characters of `a` and the first `j` of `b` are as many lines. */
  ghost predicate Parted(m: Mode, a: seq<int>, b: seq<int>, i: int, j: int) {
    && i != j && 0 < i <= LineStart(m, a) && 0 < j <= LineStart(m, b) && Ends(m, a[i - 1]) && Ends(m, b[j - 1])
    && Lines(m, a[..i]) == Lines(m, b[..j])
  }

  /** Some finished line has different lengths. */
  ghost predicate Frozen(m: Mode, a: seq<int>, b: seq<int>) { exists i, j :: Parted(m, a, b, i, j) }

  lemma MoreLines(m: Mode, a: seq<int>, i: int, j: int)
    requires 0 <= i < j <= |a| && Ends(m, a[j - 1])
    ensures Lines(m, a[..i]) < Lines(m, a[..j])
  {
    assert a[..j] == a[..i] + a[i..j] && a[i..j][j - 1 - i] == a[j - 1];
    LinesSplit(m, a[..i], a[i..j]);
    LineCounts(m, a[i..j], j - 1 - i);
  }

  lemma FrozenDiffer(m: Mode, a: seq<int>, b: seq<int>)
    requires Frozen(m, a, b)
    ensures a != b
  {
    var i, j :| Parted(m, a, b, i, j);
    if a == b { MoreLines(m, a, if i < j then i else j, if i < j then j else i); }
  }

  /** The finished lines of `s` are still there in `t`. */
  ghost predicate KeepsFinished(m: Mode, s: seq<int>, t: seq<int>) {
    LineStart(m, s) <= |t| && t[..LineStart(m, s)] == s[..LineStart(m, s)]
  }

  lemma FrozenStays(m: Mode, a: seq<int>, b: seq<int>, a2: seq<int>, b2: seq<int>)
    requires Frozen(m, a, b) && KeepsFinished(m, a, a2) && KeepsFinished(m, b, b2)
    ensures Frozen(m, a2, b2)
  {
    var i, j :| Parted(m, a, b, i, j);
    FinishedGrows(m, a, a2, i);
    FinishedGrows(m, b, b2, j);
    assert Parted(m, a2, b2, i, j);
  }

  lemma FinishedGrows(m: Mode, s: seq<int>, t: seq<int>, i: int)
    requires KeepsFinished(m, s, t) && 0 < i <= LineStart(m, s) && Ends(m, s[i - 1])
    ensures i <= LineStart(m, t) && t[..i] == s[..i] && t[i - 1] == s[i - 1]
  {
    var k := LineStart(m, s);
    assert t[..i] == t[..k][..i] == s[..k][..i] == s[..i];
    assert t[i - 1] == t[..i][i - 1] == s[..i][i - 1];
  }

  lemma CookKeepsFinished(m: Mode, t: Tty, taken: seq<int>)
    requires t.read != [] && |t.sec| < ROOM
    ensures KeepsFinished(m, taken + t.sec, taken + Cook1(m, t).sec)
  {
    StartSplit(m, taken, t.sec);
    hide Translate, Kills, Erases, Flows, Signals, Rubs, Rub, Echo;
  }

  lemma EditKeepsFinished(m: Mode, text: seq<int>, raw: int)
    ensures KeepsFinished(m, text, EditOne(m, text, raw))
  {
    hide Translate, Kills, Erases, Flows, Signals;
  }

  lemma StartOfMore(m: Mode, s: seq<int>, c: int)
    ensures LineStart(m, s + [c]) == if Ends(m, c) then |s| + 1 else LineStart(m, s)
  {
    assert (s + [c])[..|s|] == s;
  }

  lemma StartOfLess(m: Mode, s: seq<int>)
    requires LineStart(m, s) < |s|
    ensures LineStart(m, s[..|s| - 1]) == LineStart(m, s)
  {
  }

  lemma StartOfCut(m: Mode, s: seq<int>)
    ensures LineStart(m, s[..LineStart(m, s)]) == LineStart(m, s)
  {
  }

  /** One more character on both sides. */
  lemma BehindTypes(m: Mode, taken: seq<int>, sec: seq<int>, text: seq<int>, c: int)
    requires Behind(m, taken, sec, text)
    ensures Behind(m, taken, sec + [c], text + [c]) || Frozen(m, taken + (sec + [c]), text + [c])
  {
    var a, k := taken + sec, LineStart(m, taken + sec);
    assert taken + (sec + [c]) == a + [c];
    StartOfMore(m, a, c);
    StartOfMore(m, text, c);
    if Ends(m, c) {
      CutKeepsLines(m, a);
      CutKeepsLines(m, text);
      OneMoreLine(m, a, c);
      OneMoreLine(m, text, c);
      assert (a + [c])[..|a| + 1] == a + [c] && (text + [c])[..|text| + 1] == text + [c];
      assert Parted(m, a + [c], text + [c], |a| + 1, |text| + 1);
    } else {
      assert (a + [c])[..k] == a[..k] && (text + [c])[..k] == text[..k];
    }
  }

  lemma BehindKills(m: Mode, taken: seq<int>, sec: seq<int>, text: seq<int>)
    requires Behind(m, taken, sec, text)
    ensures Behind(m, taken, sec[..LineStart(m, sec)], text[..LineStart(m, text)])
  {
    StartSplit(m, taken, sec);
    StartOfCut(m, text);
    hide LineStart, Ends;
    var k := LineStart(m, text);
    assert sec[..0] == [] && taken + [] == taken;
    assert (taken + sec)[..k] == taken[..k] && text[..k][..k] == text[..k];
  }

  lemma LastUnended(m: Mode, s: seq<int>)
    requires s != []
    ensures LineStart(m, s) == 0 ==> !Ends(m, s[|s| - 1])
  {
  }

  lemma BehindErases(m: Mode, taken: seq<int>, sec: seq<int>, text: seq<int>)
    requires Behind(m, taken, sec, text)
    ensures Behind(m, taken, if sec == [] || Ends(m, sec[|sec| - 1]) then sec else sec[..|sec| - 1],
                   if LineStart(m, text) == |text| then text else text[..|text| - 1])
  {
    StartSplit(m, taken, sec);
    if sec != [] { LastUnended(m, sec); }
    hide LineStart, Ends;
    var k := LineStart(m, text);
    if k < |text| {
      StartOfLess(m, text);
      assert text[..|text| - 1][..k] == text[..k];
    }
    if sec != [] { ErasedRing(m, taken, sec); }
  }

  lemma ErasedRing(m: Mode, taken: seq<int>, sec: seq<int>)
    requires sec != [] && LineStart(m, taken + sec) < |taken|
    ensures var less := sec[..|sec| - 1];
      && LineStart(m, taken + less) == LineStart(m, taken + sec)
      && (taken + less)[..LineStart(m, taken + sec)] == (taken + sec)[..LineStart(m, taken + sec)]
  {
    var a := taken + sec;
    StartOfLess(m, a);
    hide LineStart;
    assert a[..|a| - 1] == taken + sec[..|sec| - 1];
  }

  lemma BehindCooks(m: Mode, t: Tty, taken: seq<int>, text: seq<int>)
    requires t.read != [] && |t.sec| < ROOM && Behind(m, taken, t.sec, text)
    ensures var sec, next := Cook1(m, t).sec, EditOne(m, text, t.read[0]);
      Behind(m, taken, sec, next) || Frozen(m, taken + sec, next)
  {
    hide Translate, LineStart, Kills, Erases, Flows, Signals, Rubs, Rub, Echo, Behind, Frozen;
    BehindKills(m, taken, t.sec, text);
    BehindErases(m, taken, t.sec, text);
    var i := Translate(m, t.read[0]);
    if i.Char? { BehindTypes(m, taken, t.sec, text, i.c); }
  }

  /** The first character that reaches what was taken. */
  lemma ReachFallsBehind(m: Mode, t: Tty, taken: seq<int>)
    requires t.read != [] && |t.sec| < ROOM && Reaches(m, taken, t.sec, t.read[0])
    ensures Behind(m, taken, Cook1(m, t).sec, EditOne(m, taken + t.sec, t.read[0]))
  {
    var a, k := taken + t.sec, LineStart(m, taken + t.sec);
    StartSplit(m, taken, t.sec);
    StartOfCut(m, a);
    assert t.sec[..0] == [] && taken + [] == taken;
    if k < |a| { StartOfLess(m, a); }
    hide Translate, Flows, Signals, Rubs, Rub, Echo;
  }

  /** The text that readers and the ring have parted from the edited one for good. */
  ghost predicate Apart(m: Mode, taken: seq<int>, sec: seq<int>, text: seq<int>) {
    Behind(m, taken, sec, text) || Frozen(m, taken + sec, text)
  }

  lemma ApartDiffer(m: Mode, taken: seq<int>, sec: seq<int>, text: seq<int>)
    requires Apart(m, taken, sec, text)
    ensures taken + sec != text
  {
    if Frozen(m, taken + sec, text) { FrozenDiffer(m, taken + sec, text); }
  }

  lemma ApartCooks(m: Mode, t: Tty, taken: seq<int>, text: seq<int>)
    requires t.read != [] && |t.sec| < ROOM && Apart(m, taken, t.sec, text)
    ensures Apart(m, taken, Cook1(m, t).sec, EditOne(m, text, t.read[0]))
  {
    hide Cook1, EditOne, Behind, Frozen, KeepsFinished;
    if Behind(m, taken, t.sec, text) {
      BehindCooks(m, t, taken, text);
    } else {
      CookKeepsFinished(m, t, taken);
      EditKeepsFinished(m, text, t.read[0]);
      FrozenStays(m, taken + t.sec, text, taken + Cook1(m, t).sec, EditOne(m, text, t.read[0]));
    }
  }

  lemma ApartReads(m: Mode, taken: seq<int>, sec: seq<int>, text: seq<int>, n: int)
    requires Apart(m, taken, sec, text) && 0 <= n <= |sec|
    ensures Apart(m, taken + sec[..n], sec[n..], text)
  {
    assert taken + sec[..n] + sec[n..] == taken + sec;
  }

  /** After a run the text that readers took, with the ring, is the edited text, or has parted from it. */
  ghost predicate Outcome(m: Mode, s: Session, undisturbed: bool) {
    if undisturbed then s.taken + s.t.sec == Edit(m, s.typed) else Apart(m, s.taken, s.t.sec, Edit(m, s.typed))
  }

  lemma CookOutcome(m: Mode, s: Session, undisturbed: bool)
    requires Outcome(m, s, undisturbed) && s.t.read != [] && |s.t.sec| < ROOM
    ensures Outcome(m, Step(m, s, Cook), undisturbed && !Reaches(m, s.taken, s.t.sec, s.t.read[0]))
  {
    assert (s.typed + [s.t.read[0]])[..|s.typed|] == s.typed;
    hide Cook1, EditOne, Behind, Frozen, Reaches;
    if !undisturbed {
      ApartCooks(m, s.t, s.taken, Edit(m, s.typed));
    } else if Reaches(m, s.taken, s.t.sec, s.t.read[0]) {
      ReachFallsBehind(m, s.t, s.taken);
    } else {
      CookEditsIff(m, s.t, s.taken);
    }
  }

  lemma ReadOutcome(m: Mode, s: Session, nr: int, undisturbed: bool)
    requires Outcome(m, s, undisturbed)
    ensures Outcome(m, Step(m, s, Read(nr)), undisturbed)
  {
    hide Edit, Apart;
    if nr > 0 && !Waits(m, s.t) {
      var n := Take(m, s.t.sec, nr).n;
      if undisturbed {
        assert s.taken + s.t.sec[..n] + s.t.sec[n..] == s.taken + s.t.sec;
      } else {
        ApartReads(m, s.taken, s.t.sec, Edit(m, s.typed), n);
      }
    }
  }

  lemma NothingTyped(m: Mode)
    ensures Edit(m, []) == []
  {
  }

  lemma {:induction false} RunOutcome(m: Mode, es: seq<Event>)
    ensures Outcome(m, Run(m, es), Undisturbed(m, es))
  {
    hide Cook1, Edit, Apart, Reaches, Waits;
    if es == [] {
      assert Edit(m, []) == [] by { NothingTyped(m); }
    } else {
      RunOutcome(m, es[..|es| - 1]);
      var s, was := Run(m, es[..|es| - 1]), Undisturbed(m, es[..|es| - 1]);
      match es[|es| - 1]
      case Key(c) =>
      case Cook => if s.t.read != [] && |s.t.sec| < ROOM { CookOutcome(m, s, was); }
      case Read(nr) => ReadOutcome(m, s, nr, was);
    }
  }

  /** The ring is the undelivered part of the edited text, whatever readers did meanwhile, exactly when no
      erase or kill ever met a line that was taken in part. */
  lemma RingIsEditedTextIff(m: Mode, es: seq<Event>)
    ensures var s := Run(m, es); s.taken + s.t.sec == Edit(m, s.typed) <==> Undisturbed(m, es)
  {
    hide Run, Undisturbed, Edit, Apart;
    RunOutcome(m, es);
    var s := Run(m, es);
    if !Undisturbed(m, es) { ApartDiffer(m, s.taken, s.t.sec, Edit(m, s.typed)); }
  }

  /** A canonical reader that need not wait finds an end of line, or 1023 characters behind the ring. */
  lemma ReaderFindsLine(m: Mode, es: seq<Event>)
    requires m.canon
    ensures var t := Run(m, es).t;
      Waits(m, t) <==> t.sec == [] || (|t.read| < ROOM && forall i :: 0 <= i < |t.sec| ==> !Ends(m, t.sec[i]))
  {
    RunIsSound(m, es);
    hide Run;
    var t := Run(m, es).t;
    if t.data == 0 {
      forall i | 0 <= i < |t.sec|
        ensures !Ends(m, t.sec[i])
      {
        if Ends(m, t.sec[i]) { LineCounts(m, t.sec, i); }
      }
    } else {
      SomeLine(m, t.sec);
    }
  }

  lemma {:induction false} LineCounts(m: Mode, s: seq<int>, i: int)
    requires 0 <= i < |s| && Ends(m, s[i])
    ensures Lines(m, s) > 0
  {
    if i < |s| - 1 { LineCounts(m, s[..|s| - 1], i); }
  }

  // ------------------------------------------------------------------ output

  /** The output flags of tty_write. */
  datatype OutMode = OutMode(opost: bool, ocrnl: bool, onlret: bool, onlcr: bool, olcuc: bool)

  function Upper(o: OutMode, c: int): int { if o.olcuc && 'a' as int <= c <= 'z' as int then c - 32 else c }

  /** What one character becomes on its way to the write ring. */
  function Post(o: OutMode, c: int): seq<int> {
    if !o.opost then [c]
    else
      var d := if c == 13 && o.ocrnl then 10 else if c == 10 && o.onlret then 13 else c;
      if d == 10 && o.onlcr then [13, d] else [Upper(o, d)]
  }

  function PostAll(o: OutMode, s: seq<int>): seq<int> {
    if s == [] then [] else PostAll(o, s[..|s| - 1]) + Post(o, s[|s| - 1])
  }

  function PutAll(ring: seq<int>, s: seq<int>): seq<int> {
    if s == [] then ring else PutRing(PutAll(ring, s[..|s| - 1]), s[|s| - 1])
  }

  /** PUTCH never looks whether the ring is full: of `s` only the last |s| % 1024 characters are left. */
  lemma {:induction false} PutAllWraps(s: seq<int>)
    ensures PutAll([], s) == s[|s| - |s| % TTY_BUF_SIZE..]
  {
    if s != [] {
      var t := s[..|s| - 1];
      PutAllWraps(t);
      NextCount(|t|);
      var k := |t| % TTY_BUF_SIZE;
      assert t[|t| - k..] + [s[|s| - 1]] == s[|t| - k..];
    }
  }

  lemma NextCount(n: nat)
    ensures (n + 1) % TTY_BUF_SIZE == if n % TTY_BUF_SIZE == ROOM then 0 else n % TTY_BUF_SIZE + 1
  {
  }

  /** A write reaches the console complete exactly when its translation has fewer than 1024 characters. */
  lemma WriteCompleteIff(o: OutMode, s: seq<int>)
    ensures PutAll([], PostAll(o, s)) == PostAll(o, s) <==> |PostAll(o, s)| < TTY_BUF_SIZE
  {
    hide PutAll, PostAll;
    var out := PostAll(o, s);
    PutAllWraps(out);
    SmallCount(|out|);
    assert out[0..] == out;
    assert |PutAll([], out)| == |out| % TTY_BUF_SIZE;
  }

  lemma SmallCount(n: nat)
    ensures n % TTY_BUF_SIZE <= n && (n % TTY_BUF_SIZE == n <==> n < TTY_BUF_SIZE)
  {
  }

  lemma {:induction false} PutAllSplit(ring: seq<int>, a: seq<int>, b: seq<int>)
    ensures PutAll(ring, a + b) == PutAll(PutAll(ring, a), b)
  {
    if b == [] {
      assert a + b == a;
    } else {
      PutAllSplit(ring, a, b[..|b| - 1]);
      assert (a + b)[..|a + b| - 1] == a + b[..|b| - 1];
    }
  }
}
