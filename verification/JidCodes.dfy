// The codes of XEP-0106, section 3: which characters are escaped, and as what, position by position.

module JidCodes {
  import opened Common
  import opened JidEscape

  // ---------------------------------------------------------------- the rules, without the tables of the code

  /** The characters that a localpart must not contain. */
  predicate Disallowed(c: char) {
    var n := c as int;
    || n == 0x20 || n == 0x22 || n == 0x26 || n == 0x27 || n == 0x2f
    || n == 0x3a || n == 0x3c || n == 0x3e || n == 0x40
  }

  function DigitOf(d: char): Option<nat> {
    var n := d as int;
    if 0x30 <= n <= 0x39 then Some(n - 0x30) else if 0x61 <= n <= 0x66 then Some(n - 0x61 + 10) else None
  }

  /** The number that two lower-case hexadecimal digits stand for. */
  function CodeOf(d: char, e: char): Option<nat> {
    match (DigitOf(d), DigitOf(e))
    case (Some(x), Some(y)) => Some(x * 16 + y)
    case _ => None
  }

  /** Two characters are the code of a character. */
  predicate IsCode(h: string, c: char) {
    |h| == 2 && CodeOf(h[0], h[1]) == Some(c as int)
  }

  lemma HexDigits(i: nat)
    requires i < 16
    ensures DigitOf(HEX[i]) == Some(i)
  {
    assert forall k :: 0 <= k < 10 ==> HEX[k] == '0' + k as char;
    assert forall k :: 10 <= k < 16 ==> HEX[k] == 'a' + (k - 10) as char;
  }

  /** The code table is right. */
  lemma Hex2IsCode(c: char)
    requires c as int < 256
    ensures IsCode(Hex2(c), c)
    ensures forall h: string :: IsCode(h, c) ==> h == Hex2(c)
  {
    HexDigits(c as int / 16);
    HexDigits(c as int % 16);
    forall h: string | IsCode(h, c) ensures h == Hex2(c) {
      OneCode(h[0], Hex2(c)[0], h[1], Hex2(c)[1]);
    }
  }

  lemma OneCode(d: char, d': char, e: char, e': char)
    requires CodeOf(d, e).Some? && CodeOf(d, e) == CodeOf(d', e')
    ensures d == d' && e == e'
  {
    var x, y, x', y' := DigitOf(d).value, DigitOf(e).value, DigitOf(d').value, DigitOf(e').value;
    assert x * 16 + y == x' * 16 + y' && y < 16 && y' < 16;
    assert x == x' && y == y';
  }

  lemma EscapableIff(c: char)
    ensures c in ESCAPABLE <==> Disallowed(c)
    ensures c in GUARDED <==> Disallowed(c) || c as int == 0x5c
  {
  }

  // ---------------------------------------------------------------- all passes at once

  lemma {:induction false} PassesTogether(s: string, a: seq<Rule>, b: seq<Rule>)
    requires NonEmpty(a) && NonEmpty(b)
    ensures NonEmpty(a + b) && Passes(s, a + b) == Passes(Passes(s, a), b)
    decreases |b|
  {
    if b == [] {
      assert a + b == a;
    } else {
      var front := b[..|b| - 1];
      assert (a + b)[..|a + b| - 1] == a + front;
      PassesTogether(s, a, front);
    }
  }

  lemma TogetherIndependent(a: seq<Rule>, b: seq<Rule>)
    requires Independent(a) && Independent(b)
    requires forall m <- a, n <- b :: Apart(m, n.needle)
    ensures Independent(a + b)
  {
    hide Apart;
    forall i, j | 0 <= i < j < |a + b| ensures Apart((a + b)[i], (a + b)[j].needle) {
      if j < |a| {
        assert Apart(a[i], a[j].needle);
      } else if i >= |a| {
        assert Apart(b[i - |a|], b[j - |a|].needle);
      } else {
        assert a[i] in a && b[j - |a|] in b;
      }
    }
  }

  lemma GuardBeforeEscape(c: char, d: char)
    requires c as int < 256 && d in ESCAPABLE && d as int < 256
    ensures Apart(GuardRule(c), EscapeRule(d).needle)
  {
    EscapableChars();
    var m, n := GuardRule(c), EscapeRule(d).needle;
    assert m.needle[0] == '\\' && n[0] == d;
    forall i | 0 <= i < |m.rep| ensures Differ(m.rep[i..], n) {
      assert m.rep[i] == '\\' || m.rep[i] == '5' || m.rep[i] == 'c' || m.rep[i] in Hex2(c);
      assert m.rep[i..][0] == m.rep[i];
    }
    assert n[1..] == "";
  }

  lemma UnescapeBeforeUnguard(c: char, d: char)
    requires c in ESCAPABLE && c as int < 256 && d as int < 256
    ensures Apart(UnescapeRule(c), UnguardRule(d).needle)
  {
    EscapableChars();
    var m, n := UnescapeRule(c), UnguardRule(d).needle;
    assert n[1..] == "5c" + Hex2(d);
    assert forall e <- n[1..] :: e == '5' || e == 'c' || e in Hex2(d);
    assert Hex2('\\') == "5c";
    if Hex2(c) == "5c" {
      Hex2Injective(c, '\\');
    }
    assert m.needle[1] == Hex2(c)[0] && m.needle[2] == Hex2(c)[1] && n[1] == '5' && n[2] == 'c';
    assert m.needle[0] == '\\' && m.rep[0] == c && m.rep[0..] == m.rep;
  }

  function EscapingRules(): seq<Rule> {
    GuardRules() + EscapeRules()
  }

  function UnescapingRules(): seq<Rule> {
    UnescapeRules() + UnguardRules()
  }

  /** Escaping is one pass. */
  lemma EscapedAtOnce(s: string)
    ensures NonEmpty(EscapingRules()) && Escaped(s) == Simultaneous(s, EscapingRules())
  {
    hide Apart, Simultaneous;
    CodesOk();
    GuardsIndependent();
    EscapesIndependent();
    forall m, n | m in GuardRules() && n in EscapeRules() ensures Apart(m, n.needle) {
      var c := NeedleOf(GuardRules(), GUARDED, GuardRule, m);
      var d := NeedleOf(EscapeRules(), ESCAPABLE, EscapeRule, n);
      GuardBeforeEscape(c, d);
    }
    hide GuardRules, EscapeRules;
    TogetherIndependent(GuardRules(), EscapeRules());
    PassesTogether(s, GuardRules(), EscapeRules());
    PassesAreSimultaneous(s, EscapingRules());
  }

  /** Unescaping is one pass. */
  lemma UnescapedAtOnce(s: string)
    ensures NonEmpty(UnescapingRules()) && Unescaped(s) == Simultaneous(s, UnescapingRules())
  {
    hide Apart, Simultaneous;
    CodesOk();
    UnescapesIndependent();
    UnguardsIndependent();
    forall m, n | m in UnescapeRules() && n in UnguardRules() ensures Apart(m, n.needle) {
      var c := NeedleOf(UnescapeRules(), ESCAPABLE, UnescapeRule, m);
      var d := NeedleOf(UnguardRules(), UNGUARDED, UnguardRule, n);
      UnescapeBeforeUnguard(c, d);
    }
    hide UnescapeRules, UnguardRules;
    TogetherIndependent(UnescapeRules(), UnguardRules());
    PassesTogether(s, UnescapeRules(), UnguardRules());
    PassesAreSimultaneous(s, UnescapingRules());
  }

  // ---------------------------------------------------------------- escaping, position by position

  /** The code after a backslash at the front, if it is one that escaping or unescaping knows. */
  function SequenceAt(s: string): Option<char> {
    if |s| < 3 || s[0] as int != 0x5c then None
    else
      match CodeOf(s[1], s[2])
      case None => None
      case Some(n) => if n < 256 && (n == 0x5c || Disallowed(n as char)) then Some(n as char) else None
  }

  /** A text begins with the sequence of a character. */
  predicate BeginsSequence(e: string, c: char) {
    |e| >= 3 && e[0] as int == 0x5c && CodeOf(e[1], e[2]) == Some(c as int)
  }

  /**
   * A backslash before a known code is written as the sequence of a backslash, a disallowed character as its own
   * sequence, and everything else as it is.
   */
  predicate SpelledAs(s: string, e: string)
    decreases |s|
  {
    if s == "" then e == ""
    else if SequenceAt(s).Some? then BeginsSequence(e, 0x5c as char) && SpelledAs(s[1..], e[3..])
    else if Disallowed(s[0]) then BeginsSequence(e, s[0]) && SpelledAs(s[1..], e[3..])
    else e != "" && e[0] == s[0] && SpelledAs(s[1..], e[1..])
  }

  lemma SequenceIff(s: string, c: char)
    requires c as int < 256
    ensures Begins("\\" + Hex2(c), s) <==> BeginsSequence(s, c)
  {
    Hex2IsCode(c);
    if Begins("\\" + Hex2(c), s) {
      assert s[1] == Hex2(c)[0] && s[2] == Hex2(c)[1];
    }
    if BeginsSequence(s, c) {
      OneCode(s[1], Hex2(c)[0], s[2], Hex2(c)[1]);
      assert s[..3] == "\\" + Hex2(c);
    }
  }

  /** No sequence is known here exactly if none of the guards applies. */
  lemma KnownIff(s: string)
    ensures SequenceAt(s).Some? <==> exists c :: c in GUARDED && BeginsSequence(s, c)
    ensures SequenceAt(s).Some? ==> SequenceAt(s).value in GUARDED && BeginsSequence(s, SequenceAt(s).value)
  {
    if SequenceAt(s).Some? {
      EscapableIff(SequenceAt(s).value);
    }
    if c :| c in GUARDED && BeginsSequence(s, c) {
      EscapableIff(c);
      CodesOk();
    }
  }

  lemma HexIsPlain(d: char)
    requires IsHex(d)
    ensures d as int != 0x5c && !Disallowed(d)
  {
  }

  /** A hexadecimal digit is written as it is. */
  lemma DigitCopied(d: char, s: string, e: string)
    requires IsHex(d) && SpelledAs(s, e)
    ensures SpelledAs([d] + s, [d] + e)
  {
    HexIsPlain(d);
    assert ([d] + s)[1..] == s && ([d] + e)[1..] == e;
  }

  lemma GuardedSpelled(s: string, c: char, t: string)
    requires c in GUARDED && c as int < 256 && Begins("\\" + Hex2(c), s) && SpelledAs(s[3..], t)
    ensures SpelledAs(s, "\\5c" + Hex2(c) + t)
  {
    hide SpelledAs;
    var h, e := Hex2(c), "\\5c" + Hex2(c) + t;
    assert h[0] in h && h[1] in h;
    DigitCopied(h[1], s[3..], t);
    DigitCopied(h[0], [h[1]] + s[3..], [h[1]] + t);
    assert s[1..] == [h[0]] + ([h[1]] + s[3..]) by { assert s == "\\" + h + s[3..]; }
    assert e[3..] == [h[0]] + ([h[1]] + t);
    SequenceIff(s, c);
    KnownIff(s);
    Hex2IsCode('\\');
    assert Hex2('\\') == "5c";
    SpelledGuard(s, e);
  }

  lemma SpelledGuard(s: string, e: string)
    requires s != "" && SequenceAt(s).Some? && BeginsSequence(e, 0x5c as char) && SpelledAs(s[1..], e[3..])
    ensures SpelledAs(s, e)
  {
  }

  lemma EscapedSpelled(s: string, c: char, t: string)
    requires s != "" && s[0] == c && c in ESCAPABLE && c as int < 256 && SpelledAs(s[1..], t)
    ensures SpelledAs(s, "\\" + Hex2(c) + t)
  {
    EscapableIff(c);
    Hex2IsCode(c);
    var e := "\\" + Hex2(c) + t;
    assert e[1] == Hex2(c)[0] && e[2] == Hex2(c)[1] && e[3..] == t;
    hide Hex2, IsCode, CodeOf;
  }

  lemma CopySpelled(s: string, t: string)
    requires s != "" && SequenceAt(s) == None && !Disallowed(s[0]) && SpelledAs(s[1..], t)
    ensures SpelledAs(s, [s[0]] + t)
  {
    hide SequenceAt, Disallowed;
    assert ([s[0]] + t)[1..] == t;
  }

  lemma NoneMatches(s: string)
    requires s != "" && Match(s, EscapingRules()) == None
    ensures SequenceAt(s) == None && !Disallowed(s[0])
  {
    CodesOk();
    KnownIff(s);
    EscapableIff(s[0]);
    FirstBegins(s);
    EscapingRuleThere(s[0]);
    hide SequenceAt, Disallowed, Match, Hex2, EscapingRules, Begins;
    if SequenceAt(s).Some? {
      SequenceIff(s, SequenceAt(s).value);
      EscapingRuleThere(SequenceAt(s).value);
    }
  }

  lemma FirstBegins(s: string)
    requires s != ""
    ensures Begins([s[0]], s)
  {
    assert s[..1] == [s[0]];
  }

  lemma EscapingRuleThere(c: char)
    ensures c in ESCAPABLE ==> c as int < 256 && EscapeRule(c) in EscapingRules()
    ensures c in GUARDED ==> c as int < 256 && GuardRule(c) in EscapingRules()
  {
    CodesOk();
    hide Hex2;
    if c in ESCAPABLE {
      EscapeRuleThere(c);
    }
    if c in GUARDED {
      GuardRuleThere(c);
    }
  }

  /** Which rule applies. */
  lemma RuleOf(s: string, m: Rule) returns (c: char)
    requires Match(s, EscapingRules()) == Some(m)
    ensures c as int < 256 && Begins(m.needle, s)
    ensures (c in GUARDED && m == GuardRule(c)) || (c in ESCAPABLE && m == EscapeRule(c) && s != "" && s[0] == c)
  {
    CodesOk();
    hide Match, Hex2;
    if m in GuardRules() {
      c := NeedleOf(GuardRules(), GUARDED, GuardRule, m);
    } else {
      c := NeedleOf(EscapeRules(), ESCAPABLE, EscapeRule, m);
    }
  }

  /** Escaping writes exactly what the rules say, for every string. */
  lemma {:induction false} EscapingSpells(s: string)
    ensures NonEmpty(EscapingRules()) && SpelledAs(s, Simultaneous(s, EscapingRules()))
    decreases |s|
  {
    EscapedAtOnce(s);
    hide Escaped, Hex2, SpelledAs, Simultaneous, Match, EscapingRules;
    if s == "" {
      NothingToDo(EscapingRules());
      NothingSpelled();
    } else {
      Advance(s, EscapingRules(), "", "");
      match Match(s, EscapingRules()) {
        case Some(m) =>
          var c := RuleOf(s, m);
          EscapingSpells(s[|m.needle|..]);
          var t := Simultaneous(s[|m.needle|..], EscapingRules());
          if m == GuardRule(c) && c in GUARDED {
            GuardedSpelled(s, c, t);
          } else {
            EscapedSpelled(s, c, t);
          }
        case None =>
          NoneMatches(s);
          EscapingSpells(s[1..]);
          CopySpelled(s, Simultaneous(s[1..], EscapingRules()));
      }
    }
  }

  lemma NothingSpelled()
    ensures SpelledAs("", "")
  {
  }

  /** `jid_escape`: every string is spelled by the rules. */
  lemma EscapedIsSpelled(s: string)
    ensures SpelledAs(s, Escaped(s))
  {
    EscapedAtOnce(s);
    EscapingSpells(s);
  }

  /** The rules leave no choice. */
  lemma {:induction false} SpelledOnce(s: string, e: string, f: string)
    requires SpelledAs(s, e) && SpelledAs(s, f)
    ensures e == f
    decreases |s|
  {
    if s != "" {
      if SequenceAt(s).Some? || Disallowed(s[0]) {
        SpelledOnce(s[1..], e[3..], f[3..]);
        OneCode(e[1], f[1], e[2], f[2]);
        assert e == [e[0], e[1], e[2]] + e[3..] && f == [f[0], f[1], f[2]] + f[3..];
      } else {
        SpelledOnce(s[1..], e[1..], f[1..]);
        assert e == [e[0]] + e[1..] && f == [f[0]] + f[1..];
      }
    }
  }

  // ---------------------------------------------------------------- unescaping, position by position

  /** A guarded sequence at the front: a backslash written as its sequence, before a known code. */
  predicate GuardAt(s: string) {
    |s| >= 5 && BeginsSequence(s, 0x5c as char) && SequenceAt([s[0]] + s[3..5]).Some?
  }

  /**
   * The sequence of a disallowed character is read as that character, a guarded sequence as the sequence, and
   * everything else as it is.
   */
  predicate ReadAs(s: string, u: string)
    decreases |s|
  {
    if s == "" then u == ""
    else if SequenceAt(s).Some? && Disallowed(SequenceAt(s).value) then
      u != "" && u[0] == SequenceAt(s).value && ReadAs(s[3..], u[1..])
    else if GuardAt(s) then
      |u| >= 3 && u[0] == s[0] && u[1] == s[3] && u[2] == s[4] && ReadAs(s[5..], u[3..])
    else u != "" && u[0] == s[0] && ReadAs(s[1..], u[1..])
  }

  lemma GuardedIff(s: string, c: char)
    requires c in GUARDED && c as int < 256
    ensures Begins("\\5c" + Hex2(c), s) ==> GuardAt(s) && s[3..5] == Hex2(c)
    ensures GuardAt(s) && SequenceAt([s[0]] + s[3..5]) == Some(c) ==> Begins("\\5c" + Hex2(c), s)
  {
    Hex2IsCode('\\');
    assert Hex2('\\') == "5c";
    if Begins("\\5c" + Hex2(c), s) {
      var w := "\\5c" + Hex2(c);
      assert s[..5] == w && s[1] == w[1] && s[2] == w[2] && s[3] == w[3] && s[4] == w[4];
      assert s[3..5] == Hex2(c);
      assert [s[0]] + s[3..5] == "\\" + Hex2(c);
      SequenceIff("\\" + Hex2(c), c);
      KnownIff([s[0]] + s[3..5]);
    }
    if GuardAt(s) && SequenceAt([s[0]] + s[3..5]) == Some(c) {
      var t := [s[0]] + s[3..5];
      KnownIff(t);
      SequenceIff(t, c);
      assert t == "\\" + Hex2(c);
      SequenceIff(s, '\\');
      assert s[..5] == s[..3] + s[3..5];
    }
  }

  lemma ReadSequence(s: string, c: char, t: string)
    requires c in ESCAPABLE && c as int < 256 && Begins("\\" + Hex2(c), s) && ReadAs(s[3..], t)
    ensures ReadAs(s, [c] + t)
  {
    SequenceIff(s, c);
    EscapableIff(c);
    assert ([c] + t)[1..] == t;
    hide Hex2, Begins, GuardAt;
  }

  lemma ReadGuarded(s: string, c: char, t: string)
    requires c in GUARDED && c as int < 256 && Begins("\\5c" + Hex2(c), s) && ReadAs(s[5..], t)
    ensures ReadAs(s, "\\" + Hex2(c) + t)
  {
    GuardedIff(s, c);
    var u := "\\" + Hex2(c) + t;
    assert u[3..] == t && u[1] == Hex2(c)[0] && u[2] == Hex2(c)[1] && s[3] == s[3..5][0] && s[4] == s[3..5][1];
    hide Hex2, Begins;
    assert SequenceAt(s) == Some('\\');
  }

  lemma ReadPlain(s: string, t: string)
    requires s != "" && !(SequenceAt(s).Some? && Disallowed(SequenceAt(s).value)) && !GuardAt(s) && ReadAs(s[1..], t)
    ensures ReadAs(s, [s[0]] + t)
  {
    hide SequenceAt, GuardAt, Disallowed;
    assert ([s[0]] + t)[1..] == t;
  }

  lemma UnescapeRuleThere(c: char)
    requires c as int < 256
    ensures c in ESCAPABLE ==> UnescapeRule(c) in UnescapingRules()
    ensures c in GUARDED ==> UnguardRule(c) in UnescapingRules()
  {
    CodesOk();
    hide Hex2;
    if c in ESCAPABLE {
      var i :| 0 <= i < |ESCAPABLE| && ESCAPABLE[i] == c;
      assert UnescapeRules()[i] == UnescapeRule(c);
    }
    if c in GUARDED {
      var i :| 0 <= i < |UNGUARDED| && UNGUARDED[i] == c;
      assert UnguardRules()[i] == UnguardRule(c);
    }
  }

  lemma NoneToRead(s: string)
    requires s != "" && Match(s, UnescapingRules()) == None
    ensures !(SequenceAt(s).Some? && Disallowed(SequenceAt(s).value)) && !GuardAt(s)
  {
    CodesOk();
    KnownIff(s);
    hide SequenceAt, Match, Hex2, Begins, UnescapingRules;
    if SequenceAt(s).Some? && Disallowed(SequenceAt(s).value) {
      var c := SequenceAt(s).value;
      EscapableIff(c);
      SequenceIff(s, c);
      UnescapeRuleThere(c);
    }
    if GuardAt(s) {
      KnownIff([s[0]] + s[3..5]);
      var c := SequenceAt([s[0]] + s[3..5]).value;
      GuardedIff(s, c);
      UnescapeRuleThere(c);
    }
  }

  lemma ReadingRuleOf(s: string, m: Rule) returns (c: char)
    requires Match(s, UnescapingRules()) == Some(m)
    ensures c as int < 256 && Begins(m.needle, s)
    ensures (c in ESCAPABLE && m == UnescapeRule(c)) || (c in GUARDED && m == UnguardRule(c))
  {
    CodesOk();
    hide Match, Hex2;
    if m in UnescapeRules() {
      c := NeedleOf(UnescapeRules(), ESCAPABLE, UnescapeRule, m);
    } else {
      c := NeedleOf(UnguardRules(), UNGUARDED, UnguardRule, m);
    }
  }

  /** Unescaping reads exactly what the rules say, for every string. */
  lemma {:induction false} UnescapingReads(s: string)
    ensures NonEmpty(UnescapingRules()) && ReadAs(s, Simultaneous(s, UnescapingRules()))
    decreases |s|
  {
    UnescapedAtOnce(s);
    hide Unescaped, Hex2, ReadAs, Simultaneous, Match, UnescapingRules;
    if s == "" {
      NothingToDo(UnescapingRules());
      NothingRead();
    } else {
      Advance(s, UnescapingRules(), "", "");
      match Match(s, UnescapingRules()) {
        case Some(m) =>
          var c := ReadingRuleOf(s, m);
          UnescapingReads(s[|m.needle|..]);
          var t := Simultaneous(s[|m.needle|..], UnescapingRules());
          if c in ESCAPABLE && m == UnescapeRule(c) {
            ReadSequence(s, c, t);
          } else {
            ReadGuarded(s, c, t);
          }
        case None =>
          NoneToRead(s);
          UnescapingReads(s[1..]);
          ReadPlain(s, Simultaneous(s[1..], UnescapingRules()));
      }
    }
  }

  lemma NothingRead()
    ensures ReadAs("", "")
  {
  }

  /** `jid_unescape`: every string is read by the rules. */
  lemma UnescapedIsRead(s: string)
    ensures ReadAs(s, Unescaped(s))
  {
    UnescapedAtOnce(s);
    UnescapingReads(s);
  }

  /** What is escaped contains nothing that a localpart must not contain. */
  lemma EscapedIsAllowedText(s: string)
    ensures forall c <- Escaped(s) :: !Disallowed(c)
  {
    EscapedIsAllowed(s);
    forall c | c in Escaped(s) ensures !Disallowed(c) {
      EscapableIff(c);
    }
  }
}
