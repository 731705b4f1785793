// Spaces at the ends of a localpart: XEP-0106 forbids an escaped localpart to begin or end with the sequence for one,
// and leaves it to the caller not to escape such a string.

module JidSpaces {
  import opened Common
  import opened JidEscape

  const SPACE := "\\20"

  predicate EndsIn(s: string, w: string) {
    |w| <= |s| && s[|s| - |w|..] == w
  }

  // ---------------------------------------------------------------- the escaping passes, character by character

  function Code(c: char): (w: string)
    ensures w != ""
  {
    if c in ESCAPABLE then
      EscapableChars();
      "\\" + Hex2(c)
    else [c]
  }

  function Coded(u: string): string {
    if u == "" then "" else Code(u[0]) + Coded(u[1..])
  }

  lemma {:induction false} EscapingCodes(u: string)
    ensures NonEmpty(EscapeRules()) && Simultaneous(u, EscapeRules()) == Coded(u)
    decreases |u|
  {
    EscapesIndependent();
    CodesOk();
    hide Apart, Hex2;
    if u != "" {
      EscapingCodes(u[1..]);
      match Match(u, EscapeRules()) {
        case Some(m) =>
          var c := NeedleOf(EscapeRules(), ESCAPABLE, EscapeRule, m);
          assert u[0] == c;
        case None =>
          if u[0] in ESCAPABLE {
            EscapeRuleThere(u[0]);
          }
      }
    }
  }

  lemma {:induction false} CodedSnoc(u: string, c: char)
    ensures Coded(u + [c]) == Coded(u) + Code(c)
  {
    if u == "" {
      assert u + [c] == [c] && [c][1..] == "";
      assert Coded([c]) == Code(c) + "" == Code(c);
    } else {
      assert (u + [c])[0] == u[0] && (u + [c])[1..] == u[1..] + [c];
      CodedSnoc(u[1..], c);
      assert Code(u[0]) + (Coded(u[1..]) + Code(c)) == Code(u[0]) + Coded(u[1..]) + Code(c);
    }
  }

  lemma CodeShape(c: char)
    ensures c !in ESCAPABLE ==> Code(c) == [c]
    ensures c in ESCAPABLE ==> |Code(c)| == 3 && Code(c)[0] == '\\' && IsHex(Code(c)[1]) && IsHex(Code(c)[2])
    ensures Code(c) == SPACE <==> c == ' '
  {
    EscapableChars();
    assert Hex2(' ') == "20";
    if c in ESCAPABLE {
      var h := Hex2(c);
      assert h[0] in h && h[1] in h && Code(c)[1..] == h;
      assert SPACE[1..] == "20";
      if Code(c) == SPACE {
        Hex2Injective(c, ' ');
      }
    }
  }

  lemma {:induction false} CleanAt(u: string, i: nat)
    requires Clean(u) && i < |u|
    ensures Match(u[i..], UnescapeRules()) == None
  {
    if i == 0 {
      assert u[0..] == u;
    } else {
      CleanAt(u[1..], i - 1);
      assert u[1..][i - 1..] == u[i..];
    }
  }

  /** A string without escape sequences does not contain the one for a space. */
  lemma NoSpaceCode(u: string, i: nat)
    requires Clean(u) && i + 3 <= |u|
    ensures !(u[i] == '\\' && u[i + 1] == '2' && u[i + 2] == '0')
  {
    hide Clean, Match, UnescapeRules;
    CleanAt(u, i);
    EscapableChars();
    if u[i] == '\\' && u[i + 1] == '2' && u[i + 2] == '0' {
      assert "\\" + Hex2(' ') == SPACE;
      assert u[i..][..3] == SPACE && Begins(SPACE, u[i..]);
      MatchOnlySequence(u[i..], ' ');
    }
  }

  // ---------------------------------------------------------------- at the beginning

  /** What is not a backslash at the front was not written for anything else. */
  lemma CodedHead(u: string)
    requires Coded(u) != "" && Coded(u)[0] != '\\'
    ensures u != "" && u[0] == Coded(u)[0] && Coded(u)[1..] == Coded(u[1..])
  {
    CodeShape(u[0]);
  }

  lemma CodedBegins(u: string)
    requires Clean(u)
    ensures Begins(SPACE, Coded(u)) <==> u != "" && u[0] == ' '
  {
    hide Clean, Hex2;
    if u != "" {
      CodeShape(u[0]);
      var e := Coded(u);
      assert u[0] in ESCAPABLE ==> e[..3] == Code(u[0]);
      if Begins(SPACE, e) && u[0] !in ESCAPABLE {
        assert e[..3] == SPACE && e[1..] == Coded(u[1..]) && e[0] == '\\' && e[1] == '2' && e[2] == '0';
        CodedHead(u[1..]);
        CodedHead(u[1..][1..]);
        assert u[1..][1..][0] == u[2];
        NoSpaceCode(u, 0);
      }
    }
  }

  // ---------------------------------------------------------------- at the end

  /** The last character and what is written for it. */
  lemma CodedLast(u: string)
    requires u != ""
    ensures var c := u[|u| - 1]; Coded(u) == Coded(u[..|u| - 1]) + Code(c)
  {
    hide Coded, Code;
    assert u == u[..|u| - 1] + [u[|u| - 1]];
    CodedSnoc(u[..|u| - 1], u[|u| - 1]);
  }

  predicate IsPlain(c: char) {
    c !in ESCAPABLE
  }

  /** What stands before a plain character. */
  lemma CodedBefore(u: string)
    requires u != "" && IsPlain(u[|u| - 1])
    ensures var n := |Coded(u)|; n > 0 && Coded(u)[n - 1] == u[|u| - 1] && Coded(u)[..n - 1] == Coded(u[..|u| - 1])
  {
    hide Coded;
    CodedLast(u);
    CodeShape(u[|u| - 1]);
  }

  /** A code of an escaped character ends with two digits. */
  lemma CodedDigits(u: string)
    requires u != "" && u[|u| - 1] in ESCAPABLE
    ensures var e, n := Coded(u), |Coded(u)|;
      n >= 3 && IsHex(e[n - 1]) && IsHex(e[n - 2]) && e[n - 3..] == Code(u[|u| - 1])
  {
    hide Coded;
    CodedLast(u);
    CodeShape(u[|u| - 1]);
  }

  lemma CodedEnds(u: string)
    requires Clean(u)
    ensures EndsIn(Coded(u), SPACE) <==> u != "" && u[|u| - 1] == ' '
  {
    hide Clean, Hex2, Coded;
    CodedNothing();
    EscapableChars();
    if u != "" {
      CodeShape(u[|u| - 1]);
      if u[|u| - 1] in ESCAPABLE {
        CodedDigits(u);
      } else if EndsIn(Coded(u), SPACE) {
        PlainEnd(u);
        NoSpaceCode(u, |u| - 3);
      }
    }
  }

  lemma CodedNothing()
    ensures Coded("") == ""
  {
  }

  /** Where a code of an escaped character cannot end, a plain character stands. */
  lemma Peel(u: string)
    requires Coded(u) != "" && |Coded(u)| >= 2
    requires !IsHex(Coded(u)[|Coded(u)| - 1]) || !IsHex(Coded(u)[|Coded(u)| - 2])
    ensures var e, n := Coded(u), |Coded(u)|;
      u != "" && u[|u| - 1] == e[n - 1] && e[..n - 1] == Coded(u[..|u| - 1])
  {
    hide Coded, Code, IsHex, EndsIn;
    CodedNothing();
    if u[|u| - 1] in ESCAPABLE {
      CodedDigits(u);
    }
    CodedBefore(u);
  }

  lemma SpaceAtEnd(e: string)
    requires EndsIn(e, SPACE)
    ensures |e| >= 3 && e[|e| - 3] == '\\' && e[|e| - 2] == '2' && e[|e| - 1] == '0'
  {
    var w := e[|e| - 3..];
    assert w[0] == e[|e| - 3] && w[1] == e[|e| - 2] && w[2] == e[|e| - 1];
  }

  /** The last three characters of what is coded, all of them plain. */
  lemma PlainEnd(u: string)
    requires u != "" && IsPlain(u[|u| - 1]) && EndsIn(Coded(u), SPACE)
    ensures |u| >= 3 && u[|u| - 3] == '\\' && u[|u| - 2] == '2' && u[|u| - 1] == '0'
  {
    hide Coded, Code, IsHex, EndsIn, IsPlain;
    NotHex();
    SpaceAtEnd(Coded(u));
    CodedBefore(u);
    var e, t := Coded(u), u[..|u| - 1];
    assert Coded(t) == e[..|e| - 1];
    PlainMiddle(t);
  }

  lemma PlainMiddle(t: string)
    requires var e := Coded(t); |e| >= 2 && e[|e| - 2] == '\\' && e[|e| - 1] == '2'
    ensures |t| >= 2 && t[|t| - 2] == '\\' && t[|t| - 1] == '2'
  {
    hide Coded, Code, IsHex;
    NotHex();
    Peel(t);
    LastBackslash(t[..|t| - 1]);
  }

  lemma LastBackslash(v: string)
    requires Coded(v) != "" && Coded(v)[|Coded(v)| - 1] == '\\'
    ensures v != "" && v[|v| - 1] == '\\'
  {
    hide Coded, Code, IsHex;
    NotHex();
    CodedNothing();
    if v[|v| - 1] in ESCAPABLE {
      CodedDigits(v);
    }
    CodedBefore(v);
  }

  lemma NotHex()
    ensures !IsHex('\\')
  {
  }

  // ---------------------------------------------------------------- the whole

  /** Guarding leaves the first and the last character as they are. */
  lemma {:induction false} GuardingKeepsEnds(s: string)
    requires s != ""
    ensures NonEmpty(GuardRules())
    ensures var g := Simultaneous(s, GuardRules()); g != "" && g[0] == s[0] && g[|g| - 1] == s[|s| - 1]
    decreases |s|
  {
    GuardsIndependent();
    hide Apart, Match, Simultaneous, GuardRules, Hex2;
    NothingToDo(GuardRules());
    Advance(s, GuardRules(), "", "");
    match Match(s, GuardRules()) {
      case Some(m) =>
        var c := GuardMatch(s, m);
        assert m.needle[2] == m.rep[4] && s[0] == m.needle[0] && s[2] == m.needle[2];
        if s[3..] != "" {
          GuardingKeepsEnds(s[3..]);
        }
      case None =>
        if s[1..] != "" {
          GuardingKeepsEnds(s[1..]);
        }
    }
  }

  lemma EscapedIsCoded(s: string)
    ensures NonEmpty(GuardRules())
    ensures Escaped(s) == Coded(Simultaneous(s, GuardRules())) && Clean(Simultaneous(s, GuardRules()))
  {
    hide Apart, Clean, Coded, Simultaneous;
    GuardsIndependent();
    EscapesIndependent();
    PassesAreSimultaneous(s, GuardRules());
    var u := Simultaneous(s, GuardRules());
    PassesAreSimultaneous(u, EscapeRules());
    EscapingCodes(u);
    GuardingCleans(s);
  }

  /** The forbidden sequence stands at an end of the escaped string exactly if a space stands there. */
  lemma SpacesAtEndsIff(s: string)
    ensures Begins(SPACE, Escaped(s)) <==> s != "" && s[0] == ' '
    ensures EndsIn(Escaped(s), SPACE) <==> s != "" && s[|s| - 1] == ' '
  {
    EscapedIsCoded(s);
    var u := Simultaneous(s, GuardRules());
    CodedBegins(u);
    CodedEnds(u);
    if s == "" {
      NothingToDo(GuardRules());
    } else {
      GuardingKeepsEnds(s);
    }
  }
}
