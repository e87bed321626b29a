/** What each key does to the ring a reader sees, to the echo and to the output, by character codes
    (kernel/chr_drv/tty_io.c). */
module TypingLaws {
  import opened LineEdit

  /** A character with a meaning of its own: one of the eight control characters that are looked at. */
  predicate Special(m: Mode, c: int) {
    || (m.canon && (c == m.kill || c == m.erase || c == m.stop || c == m.start))
    || (m.isig && (c == m.intr || c == m.quit || c == m.susp))
  }

  /** The key `raw` is taken as `c`: ICRNL and INLCR exchange the codes 13 and 10, and IUCLC makes letters small. */
  predicate TakenAs(m: Mode, raw: int, c: int) {
    if raw == 13 then (if m.icrnl then c == 10 else !m.igncr && c == 13)
    else if raw == 10 then c == (if m.inlcr then 13 else 10)
    else c == (if m.iuclc && 65 <= raw <= 90 then raw + 32 else raw)
  }

  /** Of the terminal only the first key of the read ring is gone. */
  function Consumed(t: Tty): Tty
    requires t.read != []
  {
    t.(read := t.read[1..])
  }

  // ------------------------------------------------------------------- keys

  /** The Enter key sends 13; with ICRNL it ends the line. */
  lemma EnterEndsLine(m: Mode, s: seq<int>, t: Tty)
    requires m.icrnl && !Special(m, 10)
    requires t.read != [] && t.read[0] == 13 && |t.sec| < 1023
    ensures Edit(m, s + [13]) == Edit(m, s) + [10]
    ensures Cook1(m, t) == Consumed(t).(sec := t.sec + [10], data := t.data + 1,
                                        out := if m.echo then t.out + [10, 13] else t.out)
  {
    assert (s + [13])[..|s|] == s;
  }

  /** With IGNCR and without ICRNL the code 13 is dropped. */
  lemma ReturnDropped(m: Mode, s: seq<int>, t: Tty)
    requires m.igncr && !m.icrnl && t.read != [] && t.read[0] == 13
    ensures Edit(m, s + [13]) == Edit(m, s) && Cook1(m, t) == Consumed(t)
  {
    assert (s + [13])[..|s|] == s;
  }

  /** A character that is not special joins the line; it is counted if it ends one, and echoed. */
  lemma CharacterTyped(m: Mode, s: seq<int>, t: Tty, raw: int, c: int)
    requires TakenAs(m, raw, c) && !Special(m, c) && t.read != [] && t.read[0] == raw && |t.sec| < 1023
    ensures Edit(m, s + [raw]) == Edit(m, s) + [c]
    ensures var u := Cook1(m, t);
      && u == Consumed(t).(sec := t.sec + [c], data := u.data, out := u.out)
      && u.data == t.data + (if c == 10 || c == m.eof then 1 else 0)
      && (!m.echo ==> u.out == t.out)
      && (m.echo && c == 10 ==> u.out == t.out + [10, 13])
      && (m.echo && c >= 32 ==> u.out == t.out + [c])
      && (m.echo && c < 32 && c != 10 && m.echoctl ==> u.out == t.out + [94, c + 64])
      && (m.echo && c < 32 && c != 10 && !m.echoctl ==> u.out == t.out)
  {
    assert (s + [raw])[..|s|] == s;
  }

  /** `k` is where the last line of `s` starts: behind the last newline or end of file. */
  predicate LineFrom(m: Mode, s: seq<int>, k: nat) {
    && k <= |s| && (k > 0 ==> s[k - 1] == 10 || s[k - 1] == m.eof)
    && forall i :: k <= i < |s| ==> s[i] != 10 && s[i] != m.eof
  }

  /** Kill takes the unfinished line away. */
  lemma LineKilled(m: Mode, s: seq<int>, k: nat, t: Tty, l: nat, raw: int)
    requires m.canon && TakenAs(m, raw, m.kill) && t.read != [] && t.read[0] == raw
    requires LineFrom(m, Edit(m, s), k) && LineFrom(m, t.sec, l)
    ensures Edit(m, s + [raw]) == Edit(m, s)[..k]
    ensures var u := Cook1(m, t); u == Consumed(t).(sec := t.sec[..l], out := u.out) && (!m.echo ==> u.out == t.out)
  {
    assert (s + [raw])[..|s|] == s;
    StartsAt(m, Edit(m, s), k);
    StartsAt(m, t.sec, l);
    hide Edit, LineStart, Rubs;
    assert Edit(m, s + [raw]) == EditOne(m, Edit(m, s), raw) by { EditMore(m, s, raw); }
  }

  lemma EditMore(m: Mode, s: seq<int>, raw: int)
    ensures Edit(m, s + [raw]) == EditOne(m, Edit(m, s), raw)
  {
    assert (s + [raw])[..|s|] == s;
  }

  lemma StartsAt(m: Mode, s: seq<int>, k: nat)
    requires LineFrom(m, s, k)
    ensures LineStart(m, s) == k
  {
    var l := LineStart(m, s);
    if l < k { assert Ends(m, s[k - 1]); }
  }

  /** Erase takes the last character away unless it ends a line; two rubouts are echoed for a control character. */
  lemma CharacterErased(m: Mode, s: seq<int>, t: Tty, raw: int)
    requires m.canon && m.erase != m.kill && TakenAs(m, raw, m.erase) && t.read != [] && t.read[0] == raw
    ensures var e := Edit(m, s); var last := if e == [] then 10 else e[|e| - 1];
      Edit(m, s + [raw]) == if last == 10 || last == m.eof then e else e[..|e| - 1]
    ensures var last := if t.sec == [] then 10 else t.sec[|t.sec| - 1];
      Cook1(m, t) ==
        if last == 10 || last == m.eof then Consumed(t)
        else Consumed(t).(sec := t.sec[..|t.sec| - 1],
                          out := if !m.echo then t.out else if last < 32 then t.out + [127, 127] else t.out + [127])
  {
    EditMore(m, s, raw);
    hide Edit;
  }

  /** The echo of a kill is that of as many erases: while the line has a character, erasing it first makes no
      difference. */
  lemma KillErases(m: Mode, t: Tty, kill: int, erase: int)
    requires m.canon && m.erase != m.kill && TakenAs(m, kill, m.kill) && TakenAs(m, erase, m.erase)
    requires t.read != [] && t.read[0] == kill
    requires t.sec != [] && t.sec[|t.sec| - 1] != 10 && t.sec[|t.sec| - 1] != m.eof
    ensures Cook1(m, t) == Cook1(m, Cook1(m, t.(read := [erase] + t.read)))
  {
    hide *;
    ErasedFirst(m, t, erase);
    KilledAfter(m, t, kill);
  }

  /** The terminal without its last character. */
  function Shorter(m: Mode, t: Tty): Tty
    requires t.sec != []
  {
    var n := |t.sec| - 1;
    t.(sec := t.sec[..n],
       out := if !m.echo then t.out else if t.sec[n] < 32 then t.out + [127, 127] else t.out + [127])
  }

  lemma ErasedFirst(m: Mode, t: Tty, erase: int)
    requires m.canon && m.erase != m.kill && TakenAs(m, erase, m.erase) && t.read != []
    requires t.sec != [] && t.sec[|t.sec| - 1] != 10 && t.sec[|t.sec| - 1] != m.eof
    ensures Cook1(m, t.(read := [erase] + t.read)) == Shorter(m, t)
  {
    hide Cook1, TakenAs;
    var u := t.(read := [erase] + t.read);
    CharacterErased(m, [], u, erase);
    assert u.read[1..] == t.read;
  }

  lemma KilledAfter(m: Mode, t: Tty, kill: int)
    requires m.canon && TakenAs(m, kill, m.kill) && t.read != [] && t.read[0] == kill
    requires t.sec != [] && t.sec[|t.sec| - 1] != 10 && t.sec[|t.sec| - 1] != m.eof
    ensures Cook1(m, t) == Cook1(m, Shorter(m, t))
  {
    hide Cook1, TakenAs, LineStart, Rubs;
    var v := Shorter(m, t);
    KillIs(m, t, kill);
    KillIs(m, v, kill);
    RubsMore(m, t.sec);
    if m.echo { Regrouped(t.out, Rub(t.sec[|t.sec| - 1]), Rubs(v.sec[LineStart(m, v.sec)..])); }
  }

  lemma Regrouped(a: seq<int>, b: seq<int>, c: seq<int>)
    ensures a + (b + c) == a + b + c
  {
  }

  lemma KillIs(m: Mode, t: Tty, kill: int)
    requires m.canon && TakenAs(m, kill, m.kill) && t.read != [] && t.read[0] == kill
    ensures var k := LineStart(m, t.sec);
      Cook1(m, t) == Consumed(t).(sec := t.sec[..k], out := if m.echo then t.out + Rubs(t.sec[k..]) else t.out)
  {
    hide LineStart, Rubs;
  }

  lemma RubsMore(m: Mode, s: seq<int>)
    requires s != [] && s[|s| - 1] != 10 && s[|s| - 1] != m.eof
    ensures var r := s[..|s| - 1]; var k := LineStart(m, s);
      && k == LineStart(m, r) && k <= |r| && r[..k] == s[..k] && Rubs(s[k..]) == Rub(s[|s| - 1]) + Rubs(r[k..])
  {
    hide Rub;
    var r, k := s[..|s| - 1], LineStart(m, s);
    assert k == LineStart(m, r);
    assert s[k..][..|s[k..]| - 1] == r[k..];
  }

  /** At the beginning of a line kill has nothing to do. */
  lemma NothingKilled(m: Mode, t: Tty, kill: int)
    requires m.canon && TakenAs(m, kill, m.kill) && t.read != [] && t.read[0] == kill
    requires t.sec != [] ==> t.sec[|t.sec| - 1] == 10 || t.sec[|t.sec| - 1] == m.eof
    ensures Cook1(m, t) == Consumed(t)
  {
    assert t.sec[|t.sec|..] == [] && t.out + [] == t.out;
  }

  /** The stop character stops the output, the start character lets it go on; neither joins the line. */
  lemma OutputHeld(m: Mode, s: seq<int>, t: Tty, raw: int, c: int)
    requires m.canon && c in {m.stop, m.start} && c != m.kill && c != m.erase && TakenAs(m, raw, c)
    requires t.read != [] && t.read[0] == raw
    ensures Edit(m, s + [raw]) == Edit(m, s) && Cook1(m, t) == Consumed(t).(stopped := c == m.stop)
  {
    EditMore(m, s, raw);
    hide Edit;
  }

  /** The interrupt, quit and suspend characters send a signal, and do not join the line. */
  lemma SignalSent(m: Mode, s: seq<int>, t: Tty, raw: int, c: int)
    requires m.isig && c in {m.intr, m.quit, m.susp} && TakenAs(m, raw, c)
    requires m.canon ==> c !in {m.kill, m.erase, m.stop, m.start}
    requires t.read != [] && t.read[0] == raw
    ensures Edit(m, s + [raw]) == Edit(m, s) && Cook1(m, t) == Consumed(t).(signals := t.signals + [c])
  {
    EditMore(m, s, raw);
    hide Edit;
  }

  // ------------------------------------------------------------------ output

  /** What a character becomes on its way to the console. */
  lemma CharacterSent(o: OutMode, s: seq<int>, c: int)
    ensures var sent := PostAll(o, s + [c]);
      && (!o.opost ==> sent == PostAll(o, s) + [c])
      && (o.opost && c == 10 && !o.onlret ==> sent == PostAll(o, s) + if o.onlcr then [13, 10] else [10])
      && (o.opost && c == 10 && o.onlret ==> sent == PostAll(o, s) + [13])
      && (o.opost && c == 13 && o.ocrnl ==> sent == PostAll(o, s) + if o.onlcr then [13, 10] else [10])
      && (o.opost && c == 13 && !o.ocrnl ==> sent == PostAll(o, s) + [13])
      && (o.opost && 97 <= c <= 122 && o.olcuc ==> sent == PostAll(o, s) + [c - 32])
      && (o.opost && c != 10 && c != 13 && !(97 <= c <= 122 && o.olcuc) ==> sent == PostAll(o, s) + [c])
  {
    assert (s + [c])[..|s|] == s;
  }
}
