// Escaping of JID localparts (XEP-0106).  The source makes one pass of str.replace per escape
// sequence; the passes are shown to equal one simultaneous pass, and unescaping to undo escaping.

module JidEscape {
  import opened Common

  // ---------------------------------------------------------------- replacing

  datatype Rule = Rule(needle: string, rep: string)

  predicate Begins(n: string, s: string)
    ensures Begins(n, s) ==> |n| <= |s|
  {
    n <= s
  }

  /** str.replace: leftmost, non-overlapping. */
  function Replace(s: string, r: Rule): string
    requires r.needle != ""
    decreases |s|
  {
    if s == "" then ""
    else if Begins(r.needle, s) then r.rep + Replace(s[|r.needle|..], r)
    else [s[0]] + Replace(s[1..], r)
  }

  predicate NonEmpty(rules: seq<Rule>) {
    forall i :: 0 <= i < |rules| ==> rules[i].needle != ""
  }

  /** One pass per rule, in order. */
  function Passes(s: string, rules: seq<Rule>): string
    requires NonEmpty(rules)
    decreases |rules|
  {
    if rules == [] then s else Replace(Passes(s, rules[..|rules| - 1]), rules[|rules| - 1])
  }

  function Match(s: string, rules: seq<Rule>): (m: Option<Rule>)
    ensures m.Some? ==> m.value in rules && Begins(m.value.needle, s)
    ensures m == None ==> forall r <- rules :: !Begins(r.needle, s)
    decreases |rules|
  {
    if rules == [] then None
    else if Begins(rules[0].needle, s) then Some(rules[0])
    else Match(s, rules[1..])
  }

  /** All rules at once: the first which matches at the current position. */
  function Simultaneous(s: string, rules: seq<Rule>): string
    requires NonEmpty(rules)
    decreases |s|
  {
    if s == "" then ""
    else match Match(s, rules) {
      case Some(r) => r.rep + Simultaneous(s[|r.needle|..], rules)
      case None => [s[0]] + Simultaneous(s[1..], rules)
    }
  }

  // ---------------------------------------------------------------- when passes do not interfere

  predicate Differ(a: string, b: string) {
    exists i :: 0 <= i < |a| && i < |b| && a[i] != b[i]
  }

  /** A later pass for `n` does not see what the rule `m` matched or wrote. */
  predicate Apart(m: Rule, n: string) {
    && m.needle != "" && n != "" && m.rep != ""
    && Differ(m.needle, n)
    && (forall i :: 0 <= i < |m.rep| ==> Differ(m.rep[i..], n))
    && m.rep[0] !in n[1..]
    && m.needle[0] !in n[1..]
  }

  predicate Independent(rules: seq<Rule>) {
    && NonEmpty(rules)
    && forall i, j :: 0 <= i < j < |rules| ==> Apart(rules[i], rules[j].needle)
  }

  lemma {:induction false} ReplaceSkips(w: string, t: string, r: Rule)
    requires r.needle != "" && forall i :: 0 <= i < |w| ==> Differ(w[i..], r.needle)
    ensures Replace(w + t, r) == w + Replace(t, r)
  {
    if w == "" {
      assert w + t == t && w + Replace(t, r) == Replace(t, r);
    } else {
      var i :| 0 <= i < |w[0..]| && i < |r.needle| && w[0..][i] != r.needle[i];
      assert (w + t)[i] != r.needle[i];
      assert (w + t)[1..] == w[1..] + t;
      forall k | 0 <= k < |w[1..]| ensures Differ(w[1..][k..], r.needle) {
        assert w[1..][k..] == w[k + 1..];
      }
      ReplaceSkips(w[1..], t, r);
      assert [w[0]] + (w[1..] + Replace(t, r)) == w + Replace(t, r);
    }
  }

  /** Characters at which no needle begins are copied. */
  lemma {:induction false} Copies(w: string, t: string, rules: seq<Rule>)
    requires NonEmpty(rules) && forall r <- rules :: r.needle[0] !in w
    ensures Simultaneous(w + t, rules) == w + Simultaneous(t, rules)
  {
    if w == "" {
      assert w + t == t && w + Simultaneous(t, rules) == Simultaneous(t, rules);
    } else {
      forall r | r in rules ensures !Begins(r.needle, w + t) {
        assert r.needle[0] != w[0];
      }
      assert (w + t)[1..] == w[1..] + t;
      Copies(w[1..], t, rules);
      assert [w[0]] + (w[1..] + Simultaneous(t, rules)) == w + Simultaneous(t, rules);
    }
  }

  /** What no rule can have written was there before. */
  lemma {:induction false} WasThere(w: string, s: string, rules: seq<Rule>)
    requires NonEmpty(rules) && w <= Simultaneous(s, rules)
    requires forall r <- rules :: r.rep != "" && r.rep[0] !in w
    ensures w <= s
    decreases |w|
  {
    if w != "" {
      var t := Simultaneous(s, rules);
      assert w[0] == t[0];
      match Match(s, rules) {
        case Some(r) =>
          assert false;
        case None =>
          assert t[1..] == Simultaneous(s[1..], rules);
          assert w[1..] <= t[1..];
          WasThere(w[1..], s[1..], rules);
      }
    }
  }

  lemma MatchSnoc(s: string, rules: seq<Rule>, r: Rule)
    ensures Match(s, rules + [r])
         == if Match(s, rules).Some? then Match(s, rules) else if Begins(r.needle, s) then Some(r) else None
    decreases |rules|
  {
    if rules != [] {
      assert (rules + [r])[1..] == rules[1..] + [r];
      MatchSnoc(s, rules[1..], r);
    }
  }

  /** The needle of a later pass is still there where it was before. */
  lemma NeedleSurvives(n: string, rest: string, rules: seq<Rule>)
    requires NonEmpty(rules) && n != "" && Match(n + rest, rules) == None
    requires forall m <- rules :: m.needle[0] !in n[1..]
    ensures Simultaneous(n + rest, rules) == n + Simultaneous(rest, rules)
  {
    hide Begins, Match, Simultaneous;
    HeadAndTail(n, rest);
    HeadAndTail(n, Simultaneous(rest, rules));
    CopyOne(n + rest, rules);
    Copies(n[1..], rest, rules);
  }

  lemma HeadAndTail(n: string, t: string)
    requires n != ""
    ensures (n + t)[0] == n[0] && (n + t)[1..] == n[1..] + t
    ensures [n[0]] + (n[1..] + t) == n + t
  {
  }

  lemma CopyOne(s: string, rules: seq<Rule>)
    requires NonEmpty(rules) && s != "" && Match(s, rules) == None
    ensures Simultaneous(s, rules) == [s[0]] + Simultaneous(s[1..], rules)
  {
  }

  /** And it does not come into being anywhere else. */
  lemma NeedleIsOld(s: string, rules: seq<Rule>, n: string)
    requires NonEmpty(rules) && n != "" && s != "" && Match(s, rules) == None
    requires forall m <- rules :: m.rep != "" && m.rep[0] !in n[1..]
    requires n <= Simultaneous(s, rules)
    ensures n <= s
  {
    var tail, t := n[1..], Simultaneous(s[1..], rules);
    assert n == [n[0]] + tail && n[0] == s[0];
    assert tail <= ([s[0]] + t)[1..] && ([s[0]] + t)[1..] == t;
    WasThere(tail, s[1..], rules);
    assert s == [s[0]] + s[1..];
  }

  /** One more pass after a simultaneous one is one more rule of the simultaneous one. */
  lemma {:induction false} OneMorePass(s: string, rules: seq<Rule>, r: Rule)
    requires NonEmpty(rules) && r.needle != ""
    requires forall m <- rules :: Apart(m, r.needle)
    ensures NonEmpty(rules + [r])
    ensures Replace(Simultaneous(s, rules), r) == Simultaneous(s, rules + [r])
    decreases |s|
  {
    hide Differ;
    if s != "" {
      MatchSnoc(s, rules, r);
      match Match(s, rules) {
        case Some(m) =>
          var rest := s[|m.needle|..];
          ReplaceSkips(m.rep, Simultaneous(rest, rules), r);
          OneMorePass(rest, rules, r);
        case None =>
          if Begins(r.needle, s) {
            var rest := s[|r.needle|..];
            assert s == r.needle + rest;
            NeedleSurvives(r.needle, rest, rules);
            var t := Simultaneous(rest, rules);
            assert (r.needle + t)[|r.needle|..] == t;
            OneMorePass(rest, rules, r);
          } else {
            var t := Simultaneous(s[1..], rules);
            assert ([s[0]] + t)[1..] == t;
            if Begins(r.needle, Simultaneous(s, rules)) {
              NeedleIsOld(s, rules, r.needle);
            }
            OneMorePass(s[1..], rules, r);
          }
      }
    }
  }

  /** Independent passes, one after the other, amount to one simultaneous pass. */
  lemma {:induction false} PassesAreSimultaneous(s: string, rules: seq<Rule>)
    requires Independent(rules)
    ensures Passes(s, rules) == Simultaneous(s, rules)
    decreases |rules|
  {
    if rules == [] {
      NoRules(s);
    } else {
      var init, last := rules[..|rules| - 1], rules[|rules| - 1];
      assert rules == init + [last];
      PassesAreSimultaneous(s, init);
      OneMorePass(s, init, last);
    }
  }

  lemma {:induction false} NoRules(s: string)
    ensures Simultaneous(s, []) == s
    decreases |s|
  {
    if s != "" {
      NoRules(s[1..]);
    }
  }

  // ---------------------------------------------------------------- the escape sequences

  const ESCAPABLE := " \"&'/:<>@"
  const BACKSLASH := "\\"
  const HEX := "0123456789abcdef"

  /** The two lower-case hexadecimal digits of a code point. */
  function Hex2(c: char): (h: string)
    requires c as int < 256
    ensures |h| == 2 && '\\' !in h && forall d <- h :: IsHex(d)
  {
    [HEX[c as int / 16], HEX[c as int % 16]]
  }

  predicate IsHex(d: char) {
    '0' <= d <= '9' || 'a' <= d <= 'f'
  }

  lemma Hex2Injective(c: char, d: char)
    requires c as int < 256 && d as int < 256 && Hex2(c) == Hex2(d)
    ensures c == d
  {
    assert Hex2(c)[0] == Hex2(d)[0] && Hex2(c)[1] == Hex2(d)[1];
    HexDigit(c as int / 16, d as int / 16);
    HexDigit(c as int % 16, d as int % 16);
  }

  lemma HexDigit(i: int, j: int)
    requires 0 <= i < 16 && 0 <= j < 16 && HEX[i] == HEX[j]
    ensures i == j
  {
    assert forall k :: 0 <= k < 10 ==> HEX[k] == '0' + k as char;
    assert forall k :: 10 <= k < 16 ==> HEX[k] == 'a' + (k - 10) as char;
  }

  lemma EscapableChars()
    ensures |ESCAPABLE| == 9
    ensures forall i, j :: 0 <= i < j < 9 ==> ESCAPABLE[i] < ESCAPABLE[j]
    ensures forall c <- ESCAPABLE :: c < '\\' && !IsHex(c)
  {
  }

  predicate Codes(cps: string) {
    && (forall c <- cps :: c as int < 256)
    && (forall i, j :: 0 <= i < j < |cps| ==> cps[i] != cps[j])
  }

  /** Escape the backslash of an escape sequence. */
  function GuardRule(c: char): Rule
    requires c as int < 256
  {
    Rule("\\" + Hex2(c), "\\5c" + Hex2(c))
  }

  function EscapeRule(c: char): Rule
    requires c as int < 256
  {
    Rule([c], "\\" + Hex2(c))
  }

  function UnescapeRule(c: char): Rule
    requires c as int < 256
  {
    Rule("\\" + Hex2(c), [c])
  }

  function UnguardRule(c: char): Rule
    requires c as int < 256
  {
    Rule("\\5c" + Hex2(c), "\\" + Hex2(c))
  }

  function RulesFor(cps: string, rule: char --> Rule): (r: seq<Rule>)
    requires forall c <- cps :: rule.requires(c)
    ensures |r| == |cps| && forall i :: 0 <= i < |r| ==> r[i] == rule(cps[i])
  {
    seq(|cps|, i requires 0 <= i < |cps| => rule(cps[i]))
  }

  const GUARDED := BACKSLASH + ESCAPABLE
  const UNGUARDED := ESCAPABLE + BACKSLASH

  lemma CodesOk()
    ensures Codes(GUARDED) && Codes(ESCAPABLE) && Codes(UNGUARDED)
    ensures forall c :: c in GUARDED <==> c in UNGUARDED
    ensures forall c :: c in GUARDED <==> c == '\\' || c in ESCAPABLE
  {
    EscapableChars();
  }

  // ---------------------------------------------------------------- independence of the passes

  lemma SequencesDiffer(p: string, c: char, d: char, t: string)
    requires c as int < 256 && d as int < 256 && c != d
    ensures Differ(p + Hex2(c) + t, p + Hex2(d))
  {
    if Hex2(c)[0] == Hex2(d)[0] && Hex2(c)[1] == Hex2(d)[1] {
      assert Hex2(c) == Hex2(d);
      Hex2Injective(c, d);
    }
    var a, b := p + Hex2(c) + t, p + Hex2(d);
    assert a[|p|] == Hex2(c)[0] && b[|p|] == Hex2(d)[0];
    assert a[|p| + 1] == Hex2(c)[1] && b[|p| + 1] == Hex2(d)[1];
  }

  lemma HeadsDiffer(a: string, b: string)
    requires a != "" && b != "" && a[0] != b[0]
    ensures Differ(a, b)
  {
  }

  lemma GuardApart(c: char, d: char)
    requires c as int < 256 && d as int < 256 && c != d && d != '\\'
    ensures Apart(GuardRule(c), GuardRule(d).needle)
  {
    var m, n := GuardRule(c), GuardRule(d).needle;
    SequencesDiffer("\\", c, d, "");
    assert "\\" + Hex2(c) + "" == m.needle;
    forall i | 0 <= i < |m.rep| ensures Differ(m.rep[i..], n) {
      if i == 0 {
        assert Hex2('\\') == "5c";
        SequencesDiffer("\\", '\\', d, Hex2(c));
        assert m.rep[0..] == "\\" + Hex2('\\') + Hex2(c);
      } else {
        HeadsDiffer(m.rep[i..], n);
      }
    }
  }

  lemma EscapeApart(c: char, d: char)
    requires c in ESCAPABLE && d in ESCAPABLE && c != d
    ensures Apart(EscapeRule(c), EscapeRule(d).needle)
  {
    EscapableChars();
    var m, n := EscapeRule(c), EscapeRule(d).needle;
    HeadsDiffer(m.needle, n);
    forall i | 0 <= i < |m.rep| ensures Differ(m.rep[i..], n) {
      assert m.rep[i] == '\\' || m.rep[i] in Hex2(c);
      HeadsDiffer(m.rep[i..], n);
    }
  }

  lemma UnescapeApart(c: char, d: char)
    requires c in ESCAPABLE && d in ESCAPABLE && c != d
    ensures Apart(UnescapeRule(c), UnescapeRule(d).needle)
  {
    EscapableChars();
    var m, n := UnescapeRule(c), UnescapeRule(d).needle;
    SequencesDiffer("\\", c, d, "");
    assert "\\" + Hex2(c) + "" == m.needle;
    assert n[1..] == Hex2(d);
    forall i | 0 <= i < |m.rep| ensures Differ(m.rep[i..], n) {
      HeadsDiffer(m.rep[i..], n);
    }
  }

  lemma UnguardApart(c: char, d: char)
    requires c as int < 256 && d as int < 256 && c != d && c != '\\'
    ensures Apart(UnguardRule(c), UnguardRule(d).needle)
  {
    var m, n := UnguardRule(c), UnguardRule(d).needle;
    SequencesDiffer("\\5c", c, d, "");
    assert "\\5c" + Hex2(c) + "" == m.needle;
    assert n[1..] == "5c" + Hex2(d);
    forall i | 0 <= i < |m.rep| ensures Differ(m.rep[i..], n) {
      if i == 0 {
        assert Hex2('\\') == "5c";
        SequencesDiffer("\\", c, '\\', "");
        assert "\\" + Hex2(c) + "" == m.rep[0..];
        DifferLonger(m.rep[0..], "\\" + Hex2('\\'), Hex2(d));
        assert "\\" + Hex2('\\') + Hex2(d) == n;
      } else {
        HeadsDiffer(m.rep[i..], n);
      }
    }
  }

  lemma DifferLonger(a: string, b: string, t: string)
    requires Differ(a, b)
    ensures Differ(a, b + t)
  {
    var i :| 0 <= i < |a| && i < |b| && a[i] != b[i];
    assert (b + t)[i] == b[i];
  }

  function GuardRules(): seq<Rule> {
    CodesOk();
    RulesFor(GUARDED, GuardRule)
  }

  function EscapeRules(): seq<Rule> {
    CodesOk();
    RulesFor(ESCAPABLE, EscapeRule)
  }

  function UnescapeRules(): seq<Rule> {
    CodesOk();
    RulesFor(ESCAPABLE, UnescapeRule)
  }

  function UnguardRules(): seq<Rule> {
    CodesOk();
    RulesFor(UNGUARDED, UnguardRule)
  }

  lemma GuardsIndependent()
    ensures Independent(GuardRules())
  {
    CodesOk();
    hide Apart;
    forall i, j | 0 <= i < j < |GUARDED| ensures Apart(GuardRules()[i], GuardRules()[j].needle) {
      GuardApart(GUARDED[i], GUARDED[j]);
    }
  }

  lemma EscapesIndependent()
    ensures Independent(EscapeRules())
  {
    CodesOk();
    hide Apart;
    forall i, j | 0 <= i < j < |ESCAPABLE| ensures Apart(EscapeRules()[i], EscapeRules()[j].needle) {
      EscapeApart(ESCAPABLE[i], ESCAPABLE[j]);
    }
  }

  lemma UnescapesIndependent()
    ensures Independent(UnescapeRules())
  {
    CodesOk();
    hide Apart;
    forall i, j | 0 <= i < j < |ESCAPABLE| ensures Apart(UnescapeRules()[i], UnescapeRules()[j].needle) {
      UnescapeApart(ESCAPABLE[i], ESCAPABLE[j]);
    }
  }

  lemma UnguardsIndependent()
    ensures Independent(UnguardRules())
  {
    CodesOk();
    hide Apart;
    forall i, j | 0 <= i < j < |UNGUARDED| ensures Apart(UnguardRules()[i], UnguardRules()[j].needle) {
      UnguardApart(UNGUARDED[i], UNGUARDED[j]);
    }
  }

  // ---------------------------------------------------------------- escaping and unescaping

  function Escaped(s: string): string {
    GuardsIndependent();
    EscapesIndependent();
    Passes(Passes(s, GuardRules()), EscapeRules())
  }

  function Unescaped(s: string): string {
    UnescapesIndependent();
    UnguardsIndependent();
    Passes(Passes(s, UnescapeRules()), UnguardRules())
  }

  method ApplyPasses(s: string, rules: seq<Rule>) returns (r: string)
    requires NonEmpty(rules)
    ensures r == Passes(s, rules)
  {
    r := s;
    for k := 0 to |rules|
      invariant r == Passes(s, rules[..k])
    {
      r := Replace(r, rules[k]);
      assert rules[..k + 1][..k] == rules[..k];
    }
    assert rules[..|rules|] == rules;
  }

  method Escape(s: string) returns (r: string)
    ensures r == Escaped(s)
  {
    GuardsIndependent();
    EscapesIndependent();
    r := ApplyPasses(s, GuardRules());
    r := ApplyPasses(r, EscapeRules());
  }

  method Unescape(localpart: string) returns (r: string)
    ensures r == Unescaped(localpart)
  {
    UnescapesIndependent();
    UnguardsIndependent();
    r := ApplyPasses(localpart, UnescapeRules());
    r := ApplyPasses(r, UnguardRules());
  }

  // ---------------------------------------------------------------- the round trip

  /** No escape sequence of an escapable character occurs. */
  predicate Clean(s: string)
    decreases |s|
  {
    UnescapesIndependent();
    s == "" || (Match(s, UnescapeRules()) == None && Clean(s[1..]))
  }

  lemma NeedleOf(rules: seq<Rule>, cps: string, rule: char --> Rule, m: Rule) returns (c: char)
    requires (forall d <- cps :: rule.requires(d)) && rules == RulesFor(cps, rule) && m in rules
    ensures c in cps && m == rule(c)
  {
    var i :| 0 <= i < |rules| && rules[i] == m;
    c := cps[i];
  }

  /** A rule whose needle is there is the one which matches, as no other needle can be. */
  lemma {:induction false} TheMatch(s: string, rules: seq<Rule>, m: Rule)
    requires m in rules && Begins(m.needle, s)
    requires forall r <- rules :: Begins(r.needle, s) ==> r == m
    ensures Match(s, rules) == Some(m)
    decreases |rules|
  {
    if rules[0] != m {
      TheMatch(s, rules[1..], m);
    }
  }

  lemma SameSequence(p: string, c: char, d: char, s: string)
    requires c as int < 256 && d as int < 256 && Begins(p + Hex2(c), s) && Begins(p + Hex2(d), s)
    ensures c == d
  {
    assert p + Hex2(c) + "" == p + Hex2(c);
    if c != d {
      SequencesDiffer(p, c, d, "");
    }
  }

  /** The two ways in which a simultaneous pass advances. */
  lemma Advance(s: string, rules: seq<Rule>, w: string, t: string)
    requires NonEmpty(rules) && s != ""
    ensures Match(s, rules) == None ==> Simultaneous(s, rules) == [s[0]] + Simultaneous(s[1..], rules)
    ensures Match(s, rules).Some? ==>
      var m := Match(s, rules).value; Simultaneous(s, rules) == m.rep + Simultaneous(s[|m.needle|..], rules)
    ensures (w + t)[|w|..] == t && [s[0]] + s[1..] == s
  {
    hide Begins, Match;
    assert (w + t)[|w|..] == t && [s[0]] + s[1..] == s;
  }

  lemma {:induction false} UnescapeUndoesEscape(u: string)
    requires Clean(u)
    ensures NonEmpty(EscapeRules()) && NonEmpty(UnescapeRules())
    ensures Simultaneous(Simultaneous(u, EscapeRules()), UnescapeRules()) == u
    decreases |u|
  {
    EscapesIndependent();
    UnescapesIndependent();
    hide Simultaneous, Hex2, Apart, EscapeRules, UnescapeRules, Match;
    if u == "" {
      NothingToDo(EscapeRules());
      NothingToDo(UnescapeRules());
    } else {
      UnescapeUndoesEscape(u[1..]);
      var t := Simultaneous(u[1..], EscapeRules());
      match Match(u, EscapeRules()) {
        case Some(m) =>
          var c := EscapableMatch(u, m);
          var w := m.rep + t;
          Advance(u, EscapeRules(), m.rep, t);
          Advance(w, UnescapeRules(), m.rep, t);
        case None =>
          Advance(u, EscapeRules(), [u[0]], t);
          CleanStaysClean(u, t);
          Advance([u[0]] + t, UnescapeRules(), [u[0]], t);
      }
    }
  }

  lemma NothingToDo(rules: seq<Rule>)
    requires NonEmpty(rules)
    ensures Simultaneous("", rules) == ""
  {
  }

  /** An escapable character is written as its sequence, which the reverse rule matches. */
  lemma EscapableMatch(u: string, m: Rule) returns (c: char)
    requires Match(u, EscapeRules()) == Some(m)
    ensures u != "" && c == u[0] && c as int < 256 && |m.needle| == 1 && |m.rep| == 3
    ensures forall t :: Match(m.rep + t, UnescapeRules()) == Some(UnescapeRule(c))
    ensures UnescapeRule(c).rep == [c] && |UnescapeRule(c).needle| == 3
  {
    CodesOk();
    c := NeedleOf(EscapeRules(), ESCAPABLE, EscapeRule, m);
    forall t ensures Match(m.rep + t, UnescapeRules()) == Some(UnescapeRule(c)) {
      MatchOnlySequence(m.rep + t, c);
    }
  }

  lemma MatchOnlySequence(w: string, c: char)
    requires c in ESCAPABLE && c as int < 256 && Begins("\\" + Hex2(c), w)
    ensures Match(w, UnescapeRules()) == Some(UnescapeRule(c))
  {
    CodesOk();
    var i :| 0 <= i < |ESCAPABLE| && ESCAPABLE[i] == c;
    assert UnescapeRules()[i] == UnescapeRule(c);
    forall r | r in UnescapeRules() && Begins(r.needle, w) ensures r == UnescapeRule(c) {
      var d := NeedleOf(UnescapeRules(), ESCAPABLE, UnescapeRule, r);
      SameSequence("\\", c, d, w);
    }
    TheMatch(w, UnescapeRules(), UnescapeRule(c));
  }

  /** A needle with an inert tail which shows up after a copied character was there before. */
  lemma SequenceWasThere(x: char, u: string, rules: seq<Rule>, n: string)
    requires NonEmpty(rules) && n != "" && Begins(n, [x] + Simultaneous(u, rules))
    requires forall r <- rules :: r.rep != "" && r.rep[0] !in n[1..]
    ensures Begins(n, [x] + u)
  {
    var t := Simultaneous(u, rules);
    assert n[1..] <= ([x] + t)[1..] && ([x] + t)[1..] == t;
    WasThere(n[1..], u, rules);
    assert n == [x] + n[1..];
  }

  lemma EscapeReps()
    ensures forall r <- EscapeRules() :: r.rep != "" && r.rep[0] == '\\'
  {
    CodesOk();
  }

  lemma CleanStaysClean(u: string, t: string)
    requires u != "" && Match(u, UnescapeRules()) == None && NonEmpty(EscapeRules())
    requires t == Simultaneous(u[1..], EscapeRules())
    ensures Match([u[0]] + t, UnescapeRules()) == None
  {
    HeadAndTail(u, "");
    assert u + "" == u;
    forall r | r in UnescapeRules() ensures !Begins(r.needle, [u[0]] + t) {
      UnescapeNeedle(r);
      NotAfterEscaping(u[0], u[1..], r.needle);
    }
  }

  lemma UnescapeNeedle(r: Rule)
    requires r in UnescapeRules()
    ensures r.needle != "" && '\\' !in r.needle[1..]
  {
    CodesOk();
    var c := NeedleOf(UnescapeRules(), ESCAPABLE, UnescapeRule, r);
    assert r.needle[1..] == Hex2(c);
  }

  lemma NotAfterEscaping(x: char, u: string, n: string)
    requires NonEmpty(EscapeRules()) && n != "" && '\\' !in n[1..] && !Begins(n, [x] + u)
    ensures !Begins(n, [x] + Simultaneous(u, EscapeRules()))
  {
    EscapeReps();
    hide EscapeRules, Simultaneous, Begins;
    if Begins(n, [x] + Simultaneous(u, EscapeRules())) {
      SequenceWasThere(x, u, EscapeRules(), n);
    }
  }

  /** A guarded sequence: what the guard rules write, and what the unguard rules match. */
  lemma GuardMatch(s: string, m: Rule) returns (c: char)
    requires Match(s, GuardRules()) == Some(m)
    ensures c in GUARDED && c as int < 256 && m == GuardRule(c) && |m.needle| == 3 && |m.rep| == 5
    ensures m.needle + s[3..] == s && s != ""
    ensures forall t :: Match(m.rep + t, UnguardRules()) == Some(UnguardRule(c))
    ensures UnguardRule(c).rep == m.needle && |UnguardRule(c).needle| == 5
  {
    CodesOk();
    c := NeedleOf(GuardRules(), GUARDED, GuardRule, m);
    var i :| 0 <= i < |UNGUARDED| && UNGUARDED[i] == c;
    assert UnguardRules()[i] == UnguardRule(c);
    forall t ensures Match(m.rep + t, UnguardRules()) == Some(UnguardRule(c)) {
      var w := m.rep + t;
      forall r | r in UnguardRules() && Begins(r.needle, w) ensures r == UnguardRule(c) {
        var d := NeedleOf(UnguardRules(), UNGUARDED, UnguardRule, r);
        SameSequence("\\5c", c, d, w);
      }
      TheMatch(w, UnguardRules(), UnguardRule(c));
    }
  }

  /** A text which begins with the guard, or with a digit, begins with no sequence to unescape. */
  lemma GuardIsBare(w: string, i: nat)
    requires i < 5 <= |w| && w[..3] == "\\5c" && IsHex(w[3]) && IsHex(w[4])
    ensures Match(w[i..], UnescapeRules()) == None
  {
    CodesOk();
    EscapableChars();
    assert Hex2('\\') == "5c";
    forall r | r in UnescapeRules() ensures !Begins(r.needle, w[i..]) {
      var d := NeedleOf(UnescapeRules(), ESCAPABLE, UnescapeRule, r);
      if i == 0 {
        SequencesDiffer("\\", '\\', d, w[3..]);
        assert "\\" + Hex2('\\') + w[3..] == w[0..];
      } else {
        assert w[i] == w[..3][1] || w[i] == w[..3][2] || i >= 3;
        assert r.needle[0] == '\\' && w[i..][0] == w[i];
      }
    }
  }

  /** A guarded sequence contains no escape sequence of an escapable character. */
  lemma GuardedIsClean(c: char, t: string)
    requires c as int < 256 && Clean(t)
    ensures Clean(GuardRule(c).rep + t)
  {
    hide Clean;
    var w := GuardRule(c).rep + t;
    assert w[5..] == t && w[..3] == "\\5c" && w[3] == Hex2(c)[0] && w[4] == Hex2(c)[1];
    forall i | 0 <= i < 5 ensures Match(w[i..], UnescapeRules()) == None {
      GuardIsBare(w, i);
    }
    CleanFrom(w, 5);
  }

  lemma {:induction false} CleanFrom(w: string, n: nat)
    requires n <= |w| && Clean(w[n..])
    requires forall i :: 0 <= i < n ==> Match(w[i..], UnescapeRules()) == None
    ensures Clean(w)
    decreases n
  {
    if n == 0 {
      assert w[0..] == w;
    } else {
      assert w[n - 1..][1..] == w[n..];
      CleanFrom(w, n - 1);
    }
  }

  lemma GuardReps()
    ensures forall r <- GuardRules() :: r.rep != "" && r.rep[0] == '\\'
  {
    CodesOk();
  }

  lemma GuardRuleThere(c: char)
    requires c in GUARDED && c as int < 256
    ensures GuardRule(c) in GuardRules()
  {
    CodesOk();
    var i :| 0 <= i < |GUARDED| && GUARDED[i] == c;
    assert GuardRules()[i] == GuardRule(c);
  }

  /** A sequence which is not in the input is not there after copying one character and guarding the rest. */
  lemma SequenceStaysAway(s: string, n: string, needle: string)
    requires s != "" && n != "" && !Begins(n, s) && Begins(n, needle) && '\\' !in n[1..] && NonEmpty(GuardRules())
    ensures !Begins(needle, [s[0]] + Simultaneous(s[1..], GuardRules()))
  {
    GuardReps();
    hide GuardRules, Simultaneous, Begins;
    assert [s[0]] + s[1..] == s;
    var w := [s[0]] + Simultaneous(s[1..], GuardRules());
    if Begins(n, w) {
      SequenceWasThere(s[0], s[1..], GuardRules(), n);
    }
    if Begins(needle, w) {
      PrefixTransitive(n, needle, w);
    }
  }

  /** A character which begins no sequence in the input begins none after guarding either. */
  lemma StaysBare(s: string, c: char, needle: string)
    requires s != "" && Match(s, GuardRules()) == None && NonEmpty(GuardRules()) && c in GUARDED && c as int < 256
    requires Begins("\\" + Hex2(c), needle)
    ensures !Begins(needle, [s[0]] + Simultaneous(s[1..], GuardRules()))
  {
    GuardRuleThere(c);
    hide GuardRules, Simultaneous, Begins;
    var n := GuardRule(c).needle;
    assert n[1..] == Hex2(c);
    SequenceStaysAway(s, n, needle);
  }

  lemma PrefixTransitive(a: string, b: string, c: string)
    requires Begins(a, b) && Begins(b, c)
    ensures Begins(a, c)
  {
  }

  lemma {:induction false} GuardingCleans(s: string)
    ensures NonEmpty(GuardRules()) && Clean(Simultaneous(s, GuardRules()))
    decreases |s|
  {
    GuardsIndependent();
    hide Simultaneous, Hex2, Apart, GuardRules, UnescapeRules, Match;
    if s == "" {
      NothingToDo(GuardRules());
    } else {
      CodesOk();
      match Match(s, GuardRules()) {
        case Some(m) =>
          var c := GuardMatch(s, m);
          var t := Simultaneous(s[3..], GuardRules());
          Advance(s, GuardRules(), m.rep, t);
          GuardingCleans(s[3..]);
          GuardedIsClean(c, t);
        case None =>
          var t := Simultaneous(s[1..], GuardRules());
          Advance(s, GuardRules(), [s[0]], t);
          GuardingCleans(s[1..]);
          BareUnescape(s);
      }
    }
  }

  lemma BareUnescape(s: string)
    requires s != "" && Match(s, GuardRules()) == None && NonEmpty(GuardRules())
    ensures Match([s[0]] + Simultaneous(s[1..], GuardRules()), UnescapeRules()) == None
  {
    CodesOk();
    var w := [s[0]] + Simultaneous(s[1..], GuardRules());
    forall r | r in UnescapeRules() ensures !Begins(r.needle, w) {
      var c := NeedleOf(UnescapeRules(), ESCAPABLE, UnescapeRule, r);
      hide GuardRules, Simultaneous, Hex2, UnescapeRules, Begins;
      StaysBare(s, c, r.needle);
    }
  }

  lemma UnguardNeedle(c: char)
    requires c as int < 256
    ensures Begins("\\" + Hex2('\\'), UnguardRule(c).needle)
  {
    assert Hex2('\\') == "5c";
    assert "\\" + "5c" == "\\5c";
  }

  lemma BareUnguard(s: string)
    requires s != "" && Match(s, GuardRules()) == None && NonEmpty(GuardRules())
    ensures Match([s[0]] + Simultaneous(s[1..], GuardRules()), UnguardRules()) == None
  {
    CodesOk();
    var w := [s[0]] + Simultaneous(s[1..], GuardRules());
    forall r | r in UnguardRules() ensures !Begins(r.needle, w) {
      var c := NeedleOf(UnguardRules(), UNGUARDED, UnguardRule, r);
      hide GuardRules, Simultaneous, Hex2, UnguardRules, UnguardRule, Begins;
      UnguardNeedle(c);
      StaysBare(s, '\\', r.needle);
    }
  }

  lemma {:induction false} UnguardUndoesGuard(s: string)
    ensures NonEmpty(GuardRules()) && NonEmpty(UnguardRules())
    ensures Simultaneous(Simultaneous(s, GuardRules()), UnguardRules()) == s
    decreases |s|
  {
    GuardsIndependent();
    UnguardsIndependent();
    hide Simultaneous, Hex2, Apart, GuardRules, UnguardRules, Match;
    if s == "" {
      NothingToDo(GuardRules());
      NothingToDo(UnguardRules());
    } else {
      match Match(s, GuardRules()) {
        case Some(m) =>
          var c := GuardMatch(s, m);
          var t := Simultaneous(s[3..], GuardRules());
          Advance(s, GuardRules(), m.rep, t);
          Advance(m.rep + t, UnguardRules(), m.rep, t);
          UnguardUndoesGuard(s[3..]);
        case None =>
          var t := Simultaneous(s[1..], GuardRules());
          Advance(s, GuardRules(), [s[0]], t);
          BareUnguard(s);
          Advance([s[0]] + t, UnguardRules(), [s[0]], t);
          UnguardUndoesGuard(s[1..]);
      }
    }
  }

  /** Unescaping undoes escaping, for every string. */
  lemma RoundTrip(s: string)
    ensures Unescaped(Escaped(s)) == s
  {
    GuardsIndependent();
    EscapesIndependent();
    UnescapesIndependent();
    UnguardsIndependent();
    hide Simultaneous, Passes, Apart, GuardRules, EscapeRules, UnescapeRules, UnguardRules;
    PassesAreSimultaneous(s, GuardRules());
    var u := Simultaneous(s, GuardRules());
    PassesAreSimultaneous(u, EscapeRules());
    var e := Simultaneous(u, EscapeRules());
    PassesAreSimultaneous(e, UnescapeRules());
    GuardingCleans(s);
    UnescapeUndoesEscape(u);
    PassesAreSimultaneous(u, UnguardRules());
    UnguardUndoesGuard(s);
  }

  /** What is escaped contains none of the characters which a localpart must not contain. */
  lemma EscapedIsAllowed(s: string)
    ensures forall c <- Escaped(s) :: c !in ESCAPABLE
  {
    GuardsIndependent();
    EscapesIndependent();
    var u := Passes(s, GuardRules());
    PassesAreSimultaneous(u, EscapeRules());
    EscapingRemoves(u);
  }

  lemma EscapeRuleThere(c: char)
    requires c in ESCAPABLE && c as int < 256
    ensures EscapeRule(c) in EscapeRules()
  {
    var i :| 0 <= i < |ESCAPABLE| && ESCAPABLE[i] == c;
    assert EscapeRules()[i] == EscapeRule(c);
  }

  lemma {:induction false} EscapingRemoves(u: string)
    ensures NonEmpty(EscapeRules()) && forall c <- Simultaneous(u, EscapeRules()) :: c !in ESCAPABLE
    decreases |u|
  {
    EscapesIndependent();
    CodesOk();
    EscapableChars();
    hide Apart;
    if u != "" {
      EscapingRemoves(u[1..]);
      match Match(u, EscapeRules()) {
        case Some(m) =>
          var c := NeedleOf(EscapeRules(), ESCAPABLE, EscapeRule, m);
          assert forall d <- m.rep :: d == '\\' || d in Hex2(c);
        case None =>
          if u[0] in ESCAPABLE {
            EscapeRuleThere(u[0]);
          }
      }
    }
  }
}
