// Language tags and ranges: basic filtering and lookup, sections 3.3.1 and 3.4 of RFC 4647.

module Languages {
  import opened Common

  // ---------------------------------------------------------------- text

  function LowerChar(c: char): char {
    if 'A' <= c <= 'Z' then c - 'A' + 'a' else c
  }

  /** Tags are compared by this, letters being ASCII. */
  function Lower(s: string): (r: string)
    ensures |r| == |s|
    ensures forall i :: 0 <= i < |s| ==> r[i] == LowerChar(s[i])
  {
    if s == "" then "" else [LowerChar(s[0])] + Lower(s[1..])
  }

  function Split(s: string): (parts: seq<string>)
    ensures parts != []
  {
    if s == "" then [""]
    else
      var rest := Split(s[1..]);
      if s[0] == '-' then [""] + rest else [[s[0]] + rest[0]] + rest[1..]
  }

  function Join(parts: seq<string>): string {
    if parts == [] then ""
    else if |parts| == 1 then parts[0]
    else parts[0] + "-" + Join(parts[1..])
  }

  lemma {:induction false} SplitThenJoin(s: string)
    ensures Join(Split(s)) == s
    ensures forall k :: 0 <= k < |Split(s)| ==> '-' !in Split(s)[k]
  {
    if s != "" {
      SplitThenJoin(s[1..]);
      var rest := Split(s[1..]);
      assert s == [s[0]] + s[1..];
      if s[0] == '-' {
        assert ([""] + rest)[1..] == rest;
      } else {
        var parts := [[s[0]] + rest[0]] + rest[1..];
        assert parts[1..] == rest[1..];
      }
    }
  }

  lemma {:induction false} JoinLast(parts: seq<string>, last: string)
    requires parts != []
    ensures Join(parts + [last]) == Join(parts) + "-" + last
  {
    if |parts| == 1 {
      assert (parts + [last])[1..] == [last];
    } else {
      assert (parts + [last])[1..] == parts[1..] + [last];
      JoinLast(parts[1..], last);
    }
  }

  lemma JoinOfNone()
    ensures Join([]) == ""
  {
  }

  // ---------------------------------------------------------------- ranges

  const WILDCARD := "*"

  predicate IsWildcard(range: string) {
    Lower(range) == WILDCARD
  }

  /** The wildcard is the asterisk alone. */
  lemma WildcardIff(range: string)
    ensures IsWildcard(range) <==> |range| == 1 && range[0] as int == 0x2a
  {
    if |range| == 1 {
      assert Lower(range)[0] == LowerChar(range[0]);
    }
  }

  /** None is the ValueError for a range that would be empty. */
  function StripRightmost(range: string): Option<string> {
    var parts := Split(range);
    var fewer := parts[..|parts| - 1];
    var fewest := if fewer != [] && |fewer[|fewer| - 1]| == 1 then fewer[..|fewer| - 1] else fewer;
    var text := Join(fewest);
    if text == "" then None else Some(text)
  }

  /** What stripping takes away: the last part, and a part of one character before it. */
  ghost predicate Stripped(range: string, text: string, tail: string) {
    && range == text + "-" + tail
    && ('-' !in tail || (|tail| >= 2 && tail[0] != '-' && tail[1] == '-' && '-' !in tail[2..]))
  }

  lemma StrippingShortens(range: string) returns (tail: string)
    requires StripRightmost(range).Some?
    ensures Stripped(range, StripRightmost(range).value, tail)
    ensures |StripRightmost(range).value| < |range|
  {
    hide Split, Join;
    var parts := Split(range);
    var n := |parts|;
    var fewer, last := parts[..n - 1], parts[n - 1];
    SplitThenJoin(range);
    assert parts == fewer + [last];
    JoinOfNone();
    assert fewer != [];
    JoinLast(fewer, last);
    if |fewer[n - 2]| == 1 {
      var fewest, single := fewer[..n - 2], fewer[n - 2];
      assert fewer == fewest + [single];
      assert fewest != [];
      JoinLast(fewest, single);
      tail := single + "-" + last;
      assert single[0] in parts[n - 2];
      assert tail[2..] == last;
      assert range == Join(fewest) + "-" + tail;
    } else {
      tail := last;
    }
  }

  lemma StrippedIsShorter(range: string)
    requires StripRightmost(range).Some?
    ensures |StripRightmost(range).value| < |range|
  {
    var tail := StrippingShortens(range);
  }

  lemma {:induction false} SplitConcat(part: string, rest: string)
    requires '-' !in part
    ensures Split(part) == [part]
    ensures Split(part + "-" + rest) == [part] + Split(rest)
  {
    if part == "" {
      assert part + "-" + rest == "-" + rest && ("-" + rest)[1..] == rest;
    } else {
      SplitConcat(part[1..], rest);
      var all := part + "-" + rest;
      assert all[0] == part[0] && all[1..] == part[1..] + "-" + rest;
      assert part == [part[0]] + part[1..];
    }
  }

  lemma {:induction false} SplitLast(text: string, last: string)
    requires '-' !in last
    ensures Split(text + "-" + last) == Split(text) + [last]
  {
    var all := text + "-" + last;
    SplitConcat(last, "");
    if text == "" {
      assert all == "-" + last && all[1..] == last;
    } else {
      SplitLast(text[1..], last);
      assert all[0] == text[0] && all[1..] == text[1..] + "-" + last;
    }
  }

  /** The last part of a text has one character. */
  predicate EndsInSingleton(text: string) {
    var n := |text|;
    n >= 1 && text[n - 1] != '-' && (n >= 2 ==> text[n - 2] == '-')
  }

  lemma LastPart(text: string) returns (parts: seq<string>, last: string)
    ensures Split(text) == parts + [last] && '-' !in last
    ensures EndsInSingleton(text) <==> |last| == 1
  {
    hide Split, Join;
    var all := Split(text);
    SplitThenJoin(text);
    parts, last := all[..|all| - 1], all[|all| - 1];
    assert all == parts + [last];
    if parts != [] {
      JoinLast(parts, last);
      EndsInLast(Join(parts), last);
    } else {
      JoinOfOne(last);
      assert text == last;
    }
  }

  lemma JoinOfOne(part: string)
    ensures Join([part]) == part
  {
  }

  lemma EndsInLast(start: string, last: string)
    requires '-' !in last
    ensures EndsInSingleton(start + "-" + last) <==> |last| == 1
  {
    var text := start + "-" + last;
    var n := |text|;
    assert |last| == 0 ==> text[n - 1] == '-';
    assert |last| >= 1 ==> text[n - 1] == last[|last| - 1];
    assert |last| == 1 ==> text[n - 2] == '-';
    assert |last| >= 2 ==> text[n - 2] == last[|last| - 2];
  }

  /**
   * Exactly what is left of a range: it is not empty, and its last part and its separator were cut off,
   * together with a single character that was a part before it.
   */
  ghost predicate LeftOf(range: string, text: string, tail: string) {
    text != "" && Stripped(range, text, tail) && ('-' !in tail ==> !EndsInSingleton(text))
  }

  lemma StripsIff(range: string, text: string)
    ensures StripRightmost(range) == Some(text) <==> exists tail :: LeftOf(range, text, tail)
  {
    if StripRightmost(range) == Some(text) {
      var tail := StrippingLeaves(range);
    }
    if tail :| LeftOf(range, text, tail) {
      LeftIsStripped(range, text, tail);
    }
  }

  lemma StrippingLeaves(range: string) returns (tail: string)
    requires StripRightmost(range).Some?
    ensures LeftOf(range, StripRightmost(range).value, tail)
  {
    hide Split, Join, EndsInSingleton, LeftOf;
    tail := StrippingShortens(range);
    var text := StripRightmost(range).value;
    if '-' !in tail && EndsInSingleton(text) {
      var parts, last := LastPart(text);
      SplitLast(text, tail);
      SingletonGoes(range, parts, last, tail);
      SplitThenJoin(text);
      assert false;
    }
    LeavesText(range, text, tail);
  }

  lemma LeavesText(range: string, text: string, tail: string)
    requires StripRightmost(range) == Some(text) && Stripped(range, text, tail)
    requires '-' !in tail ==> !EndsInSingleton(text)
    ensures LeftOf(range, text, tail)
  {
  }

  lemma SingletonGoes(range: string, parts: seq<string>, single: string, last: string)
    requires Split(range) == parts + [single] + [last] && |single| == 1
    ensures StripRightmost(range) == (if Join(parts) == "" then None else Some(Join(parts)))
    ensures parts != [] ==> Join(parts + [single]) != Join(parts)
    ensures parts == [] ==> StripRightmost(range) == None
  {
    hide Split;
    var all := Split(range);
    assert all[..|all| - 1] == parts + [single];
    assert (parts + [single])[..|parts|] == parts;
    if parts != [] {
      JoinLast(parts, single);
    }
  }

  lemma LeftIsStripped(range: string, text: string, tail: string)
    requires LeftOf(range, text, tail)
    ensures StripRightmost(range) == Some(text)
  {
    hide Split, Join, EndsInSingleton;
    SplitThenJoin(text);
    if '-' !in tail {
      var parts, last := LastPart(text);
      SplitLast(text, tail);
      assert (parts + [last] + [tail])[..|parts| + 1] == parts + [last];
    } else {
      var single, last := [tail[0]], tail[2..];
      assert tail == single + "-" + last;
      assert range == (text + "-" + single) + "-" + last;
      SplitLast(text, single);
      SplitLast(text + "-" + single, last);
      SingletonGoes(range, Split(text), single, last);
    }
  }

  /** Stripping makes a wildcard of exactly the ranges that start with one, go on with a singleton and end after it. */
  lemma StrippedToWildcardIff(range: string)
    ensures StripRightmost(range) == Some(WILDCARD)
      <==> exists middle, last :: ThreeParts(range, middle, last)
  {
    hide StripRightmost;
    StripsIff(range, WILDCARD);
    if tail :| LeftOf(range, WILDCARD, tail) {
      assert tail == [tail[0]] + "-" + tail[2..];
      assert ThreeParts(range, [tail[0]], tail[2..]);
    }
    if middle, last :| ThreeParts(range, middle, last) {
      var tail := middle + "-" + last;
      assert tail[2..] == last;
      assert LeftOf(range, WILDCARD, tail);
    }
  }

  ghost predicate ThreeParts(range: string, middle: string, last: string) {
    |middle| == 1 && '-' !in middle && '-' !in last && range == WILDCARD + "-" + middle + "-" + last
  }

  // ---------------------------------------------------------------- basic filtering

  predicate Matches(language: string, range: string) {
    var l, r := Lower(language), Lower(range);
    l == r || (|r| < |l| && l[..|r|] == r && l[|r|] == '-')
  }

  /** The first part of a text, and what comes after it. */
  lemma {:induction false} FirstPart(s: string) returns (part: string, rest: string)
    ensures '-' !in part && (s == part || s == part + "-" + rest)
    ensures s == part ==> Split(s) == [part]
    ensures s != part ==> Split(s) == [part] + Split(rest)
  {
    if '-' !in s {
      part, rest := s, "";
      SplitConcat(s, "");
    } else if s[0] == '-' {
      part, rest := "", s[1..];
      assert s == "" + "-" + rest;
      SplitConcat(part, rest);
    } else {
      assert s == [s[0]] + s[1..];
      var p;
      p, rest := FirstPart(s[1..]);
      part := [s[0]] + p;
      assert s[1..] == p ==> s == part;
      assert s[1..] == p + "-" + rest ==> s == part + "-" + rest;
      if s[1..] != p {
        SplitConcat(part, rest);
      } else {
        SplitConcat(part, "");
      }
    }
  }

  /** `l` is `r`, or continues it after a hyphen. */
  predicate Extends(l: string, r: string) {
    l == r || (|r| < |l| && l[..|r|] == r && l[|r|] == '-')
  }

  lemma PrefixHead(part: string, rest: seq<string>, other: string, others: seq<string>)
    ensures [part] + rest <= [other] + others <==> part == other && rest <= others
  {
    var a, b := [part] + rest, [other] + others;
    if part == other && rest <= others {
      assert b[..|a|] == a;
    }
    if a <= b {
      assert a[0] == b[0] && a[1..] == rest && b[1..] == others && a[1..] <= b[1..];
    }
  }

  lemma {:induction false} ExtendsIff(l: string, r: string)
    ensures Extends(l, r) <==> Split(r) <= Split(l)
    decreases |r|
  {
    hide Split;
    var lp, lrest := FirstPart(l);
    var rp, rrest := FirstPart(r);
    if r == rp {
      if l == lp {
        OnePart(l, r);
        assert [r] + [] == [r] && [l] + [] == [l];
        PrefixHead(r, [], l, []);
      } else {
        HeadExtends(lp, lrest, r);
        assert [r] + [] == [r];
        PrefixHead(r, [], lp, Split(lrest));
      }
    } else {
      if l == lp {
        NotShorter(l, r, rp, rrest);
        SplitThenJoin(rrest);
        SplitSome(rrest);
        assert [l] + [] == [l];
        PrefixHead(rp, Split(rrest), l, []);
      } else {
        PrefixHead(rp, Split(rrest), lp, Split(lrest));
        ExtendsIff(lrest, rrest);
        BothHeads(lp, lrest, rp, rrest);
      }
    }
  }

  lemma SplitSome(s: string)
    ensures |Split(s)| > 0
  {
  }

  /** What extending means character by character. */
  lemma ExtendsAt(l: string, r: string)
    ensures Extends(l, r) <==>
      |r| <= |l| && (forall i :: 0 <= i < |r| ==> l[i] == r[i]) && (|r| == |l| || l[|r|] == '-')
  {
    if Extends(l, r) && l != r {
      assert forall i :: 0 <= i < |r| ==> l[i] == l[..|r|][i];
    }
    if |r| <= |l| && (forall i :: 0 <= i < |r| ==> l[i] == r[i]) {
      assert l[..|r|] == r;
      assert l[..|l|] == l;
    }
  }

  lemma OnePart(l: string, r: string)
    requires '-' !in l && '-' !in r
    ensures Extends(l, r) <==> l == r
  {
  }

  /** No text has two different first parts. */
  lemma NotLonger(l: string, part: string, other: string)
    requires Extends(l, part) && Extends(l, other) && '-' !in other
    ensures |other| <= |part|
  {
    hide Extends;
    ExtendsAt(l, part);
    ExtendsAt(l, other);
  }

  lemma SamePart(l: string, part: string, other: string)
    requires Extends(l, part) && Extends(l, other) && '-' !in part && '-' !in other
    ensures part == other
  {
    hide Extends;
    NotLonger(l, part, other);
    NotLonger(l, other, part);
    ExtendsAt(l, part);
    ExtendsAt(l, other);
  }

  lemma ExtendsHead(part: string, rest: string)
    ensures Extends(part + "-" + rest, part)
  {
    assert (part + "-" + rest)[..|part|] == part;
  }

  lemma ExtendsFurther(l: string, r: string, part: string)
    requires Extends(l, r) && Extends(r, part)
    ensures Extends(l, part)
  {
    hide Extends;
    ExtendsAt(l, r);
    ExtendsAt(r, part);
    ExtendsAt(l, part);
  }

  lemma HeadExtends(part: string, rest: string, r: string)
    requires '-' !in part && '-' !in r
    ensures Extends(part + "-" + rest, r) <==> part == r
  {
    ExtendsHead(part, rest);
    if Extends(part + "-" + rest, r) {
      SamePart(part + "-" + rest, part, r);
    }
  }

  lemma NotShorter(l: string, r: string, part: string, rest: string)
    requires '-' !in l && r == part + "-" + rest
    ensures !Extends(l, r)
  {
    hide Extends;
    ExtendsAt(l, r);
    assert r[|part|] == '-';
  }

  lemma ExtendsAfter(part: string, l: string, r: string)
    ensures Extends(part + "-" + l, part + "-" + r) <==> Extends(l, r)
  {
    hide Extends;
    var n, a, b := |part| + 1, part + "-" + l, part + "-" + r;
    ExtendsAt(l, r);
    ExtendsAt(a, b);
    assert forall i :: 0 <= i < n ==> a[i] == b[i];
    assert forall i :: 0 <= i < |l| ==> l[i] == a[n + i];
    assert forall i :: 0 <= i < |r| ==> r[i] == b[n + i];
    assert forall i :: n <= i < |b| ==> b[i] == r[i - n];
    assert forall i :: n <= i < |a| ==> a[i] == l[i - n];
  }

  lemma BothHeads(lp: string, lrest: string, rp: string, rrest: string)
    requires '-' !in lp && '-' !in rp
    ensures Extends(lp + "-" + lrest, rp + "-" + rrest) <==> lp == rp && Extends(lrest, rrest)
  {
    hide Extends;
    var l, r := lp + "-" + lrest, rp + "-" + rrest;
    ExtendsHead(lp, lrest);
    ExtendsHead(rp, rrest);
    if Extends(l, r) {
      ExtendsFurther(l, r, rp);
      SamePart(l, lp, rp);
    }
    if lp == rp {
      ExtendsAfter(lp, lrest, rrest);
    }
  }

  /** A range matches the languages of which it is, part by part, a beginning. */
  lemma MatchesIff(language: string, range: string)
    ensures Matches(language, range) <==> Split(Lower(range)) <= Split(Lower(language))
  {
    ExtendsIff(Lower(language), Lower(range));
  }

  /** One character is the other, or the same ASCII letter in the other case. */
  predicate SameLetter(c: char, d: char) {
    c == d
    || (0x41 <= c as int <= 0x5a && d as int == c as int + 32)
    || (0x41 <= d as int <= 0x5a && c as int == d as int + 32)
  }

  lemma SameLetterIff(c: char, d: char)
    ensures LowerChar(c) == LowerChar(d) <==> SameLetter(c, d)
  {
    LowerCode(c);
    LowerCode(d);
  }

  lemma LowerCode(c: char)
    ensures LowerChar(c) as int == if 0x41 <= c as int <= 0x5a then c as int + 32 else c as int
  {
  }

  /** Tags are compared without regard to case. */
  lemma SameTagIff(s: string, t: string)
    ensures Lower(s) == Lower(t) <==> |s| == |t| && forall i :: 0 <= i < |s| ==> SameLetter(s[i], t[i])
  {
    hide LowerChar, SameLetter, Lower;
    var a, b := Lower(s), Lower(t);
    if a == b {
      forall i | 0 <= i < |s| ensures SameLetter(s[i], t[i]) {
        assert a[i] == b[i];
        SameLetterIff(s[i], t[i]);
      }
    }
    if |s| == |t| && forall i :: 0 <= i < |s| ==> SameLetter(s[i], t[i]) {
      forall i | 0 <= i < |s| ensures a[i] == b[i] {
        SameLetterIff(s[i], t[i]);
      }
    }
  }

  /** A range, by its priority, and a language, by its position. */
  datatype Place = Place(range: nat, position: nat)

  predicate Before(a: Place, b: Place) {
    a.range < b.range || (a.range == b.range && a.position < b.position)
  }

  ghost predicate MatchedAt(languages: seq<string>, ranges: seq<string>, p: Place) {
    p.range < |ranges| && p.position < |languages| && Matches(languages[p.position], ranges[p.range])
  }

  ghost predicate SameTag(languages: seq<string>, p: Place, q: Place)
    requires p.position < |languages| && q.position < |languages|
  {
    Lower(languages[p.position]) == Lower(languages[q.position])
  }

  /** The first match of a tag: ranges in order of priority, and languages as they come. */
  ghost predicate FirstMatch(languages: seq<string>, ranges: seq<string>, p: Place) {
    && MatchedAt(languages, ranges, p)
    && forall q :: MatchedAt(languages, ranges, q) && SameTag(languages, p, q) ==> !Before(q, p)
  }

  ghost predicate InOrder(places: seq<Place>) {
    forall i, j :: 0 <= i < j < |places| ==> Before(places[i], places[j])
  }

  /** What was yielded before a place was looked at: the first matches before it, in order. */
  ghost predicate FilteredTo(languages: seq<string>, ranges: seq<string>, here: Place, places: seq<Place>) {
    && InOrder(places)
    && (forall k :: 0 <= k < |places| ==> FirstMatch(languages, ranges, places[k]) && Before(places[k], here))
    && (forall p :: FirstMatch(languages, ranges, p) && Before(p, here) ==> p in places)
  }

  ghost predicate Yields(languages: seq<string>, places: seq<Place>, out: seq<string>) {
    |out| == |places|
    && forall k :: 0 <= k < |out| ==> places[k].position < |languages| && out[k] == languages[places[k].position]
  }

  /** The set of tags found. */
  ghost predicate Found(languages: seq<string>, places: seq<Place>, found: set<string>)
    requires forall k :: 0 <= k < |places| ==> places[k].position < |languages|
  {
    && (forall k :: 0 <= k < |places| ==> Lower(languages[places[k].position]) in found)
    && (forall t :: t in found ==> exists k :: 0 <= k < |places| && t == Lower(languages[places[k].position]))
  }

  /** Every tag that is matched at all is matched first somewhere. */
  lemma FirstMatchExists(languages: seq<string>, ranges: seq<string>, p: Place) returns (q: Place)
    requires MatchedAt(languages, ranges, p)
    ensures FirstMatch(languages, ranges, q) && SameTag(languages, p, q) && (q == p || Before(q, p))
    decreases p.range, p.position
  {
    if FirstMatch(languages, ranges, p) {
      q := p;
    } else {
      var r :| MatchedAt(languages, ranges, r) && SameTag(languages, p, r) && Before(r, p);
      q := FirstMatchExists(languages, ranges, r);
    }
  }

  function After(here: Place): Place {
    Place(here.range, here.position + 1)
  }

  lemma StepUnmatched(languages: seq<string>, ranges: seq<string>, here: Place, places: seq<Place>)
    requires FilteredTo(languages, ranges, here, places) && !FirstMatch(languages, ranges, here)
    ensures FilteredTo(languages, ranges, After(here), places)
  {
    forall p | FirstMatch(languages, ranges, p) && Before(p, After(here)) ensures p in places {
      assert Before(p, here) || p == here;
    }
  }

  lemma StepFound(languages: seq<string>, ranges: seq<string>, here: Place, places: seq<Place>, found: set<string>)
    requires FilteredTo(languages, ranges, here, places) && here.position < |languages|
    requires Found(languages, places, found) && Lower(languages[here.position]) in found
    ensures !FirstMatch(languages, ranges, here)
  {
    var k :| 0 <= k < |places| && Lower(languages[here.position]) == Lower(languages[places[k].position]);
    assert FirstMatch(languages, ranges, places[k]) && SameTag(languages, here, places[k]);
  }

  lemma StepMatched(languages: seq<string>, ranges: seq<string>, here: Place, places: seq<Place>, found: set<string>)
    requires FilteredTo(languages, ranges, here, places) && MatchedAt(languages, ranges, here)
    requires Found(languages, places, found) && Lower(languages[here.position]) !in found
    ensures FilteredTo(languages, ranges, After(here), places + [here])
    ensures Found(languages, places + [here], found + {Lower(languages[here.position])})
  {
    hide Found;
    var q := FirstMatchExists(languages, ranges, here);
    NotFoundBefore(languages, places, found, q);
    assert q == here;
    FoundMore(languages, places, found, here);
    FilteredMore(languages, ranges, here, places);
  }

  lemma FilteredMore(languages: seq<string>, ranges: seq<string>, here: Place, places: seq<Place>)
    requires FilteredTo(languages, ranges, here, places) && FirstMatch(languages, ranges, here)
    ensures FilteredTo(languages, ranges, After(here), places + [here])
  {
    hide FirstMatch;
    var more := places + [here];
    assert more[|places|] == here;
    forall p | FirstMatch(languages, ranges, p) && Before(p, After(here)) ensures p in more {
      assert Before(p, here) || p == here;
    }
  }

  lemma NotFoundBefore(languages: seq<string>, places: seq<Place>, found: set<string>, q: Place)
    requires forall k :: 0 <= k < |places| ==> places[k].position < |languages|
    requires Found(languages, places, found) && q.position < |languages| && Lower(languages[q.position]) !in found
    ensures q !in places
  {
  }

  lemma FoundMore(languages: seq<string>, places: seq<Place>, found: set<string>, here: Place)
    requires forall k :: 0 <= k < |places| ==> places[k].position < |languages|
    requires Found(languages, places, found) && here.position < |languages|
    ensures forall k :: 0 <= k < |places + [here]| ==> (places + [here])[k].position < |languages|
    ensures Found(languages, places + [here], found + {Lower(languages[here.position])})
  {
    var more := places + [here];
    forall t | t in found + {Lower(languages[here.position])}
      ensures exists k :: 0 <= k < |more| && t == Lower(languages[more[k].position])
    {
      if t in found {
        var k :| 0 <= k < |places| && t == Lower(languages[places[k].position]);
        assert more[k] == places[k];
      } else {
        assert more[|places|] == here;
      }
    }
  }

  lemma NextRange(languages: seq<string>, ranges: seq<string>, i: nat, places: seq<Place>)
    requires FilteredTo(languages, ranges, Place(i, |languages|), places)
    ensures FilteredTo(languages, ranges, Place(i + 1, 0), places)
  {
    forall p | FirstMatch(languages, ranges, p) && Before(p, Place(i + 1, 0)) ensures p in places {
      assert Before(p, Place(i, |languages|));
    }
  }

  /** The end of the search. */
  function End(ranges: seq<string>): Place {
    Place(|ranges|, 0)
  }

  ghost predicate AskedForAll(ranges: seq<string>) {
    exists i :: 0 <= i < |ranges| && IsWildcard(ranges[i])
  }

  /** No tag twice. */
  ghost predicate DuplicateFree(languages: seq<string>) {
    forall i, j :: 0 <= i < j < |languages| ==> Lower(languages[i]) != Lower(languages[j])
  }

  lemma FilteredOnce(languages: seq<string>, ranges: seq<string>, places: seq<Place>, out: seq<string>)
    requires FilteredTo(languages, ranges, End(ranges), places) && Yields(languages, places, out)
    ensures DuplicateFree(out)
  {
    forall i, j | 0 <= i < j < |out| ensures Lower(out[i]) != Lower(out[j]) {
      assert FirstMatch(languages, ranges, places[j]) && MatchedAt(languages, ranges, places[i]);
      assert Before(places[i], places[j]);
    }
  }

  method HasWildcard(ranges: seq<string>) returns (r: bool)
    ensures r <==> AskedForAll(ranges)
  {
    for i := 0 to |ranges|
      invariant forall k :: 0 <= k < i ==> !IsWildcard(ranges[k])
    {
      if IsWildcard(ranges[i]) {
        return true;
      }
    }
    r := false;
  }

  /**
   * Without a wildcard, exactly the first matches of all matched tags, in order of priority and then of position;
   * with a wildcard, the languages as they are, repeated ones included.
   */
  method BasicFilterLanguages(languages: seq<string>, ranges: seq<string>)
    returns (out: seq<string>, ghost places: seq<Place>)
    ensures AskedForAll(ranges) ==> out == languages
    ensures !AskedForAll(ranges) ==> FilteredTo(languages, ranges, End(ranges), places)
    ensures !AskedForAll(ranges) ==> Yields(languages, places, out)
    ensures DuplicateFree(out) <==> !AskedForAll(ranges) || DuplicateFree(languages)
  {
    var all := HasWildcard(ranges);
    if all {
      return languages, [];
    }
    var found: set<string> := {};
    out, places := [], [];
    for i := 0 to |ranges|
      invariant FilteredTo(languages, ranges, Place(i, 0), places) && Yields(languages, places, out)
      invariant Found(languages, places, found)
    {
      out, places, found := FilterByRange(languages, ranges, i, out, places, found);
      NextRange(languages, ranges, i, places);
    }
    FilteredOnce(languages, ranges, places, out);
  }

  method FilterByRange(languages: seq<string>, ranges: seq<string>, i: nat, out0: seq<string>,
      ghost places0: seq<Place>, found0: set<string>)
    returns (out: seq<string>, ghost places: seq<Place>, found: set<string>)
    requires i < |ranges| && FilteredTo(languages, ranges, Place(i, 0), places0) && Yields(languages, places0, out0)
    requires Found(languages, places0, found0)
    ensures FilteredTo(languages, ranges, Place(i, |languages|), places) && Yields(languages, places, out)
    ensures Found(languages, places, found)
  {
    hide FilteredTo, Found, FirstMatch;
    out, places, found := out0, places0, found0;
    for j := 0 to |languages|
      invariant FilteredTo(languages, ranges, Place(i, j), places) && Yields(languages, places, out)
      invariant Found(languages, places, found)
    {
      ghost var here := Place(i, j);
      if Lower(languages[j]) in found {
        StepFound(languages, ranges, here, places, found);
        StepUnmatched(languages, ranges, here, places);
        continue;
      }
      if Matches(languages[j], ranges[i]) {
        StepMatched(languages, ranges, here, places, found);
        out, places := out + [languages[j]], places + [here];
        found := found + {Lower(languages[j])};
        continue;
      }
      NotMatched(languages, ranges, here);
      StepUnmatched(languages, ranges, here, places);
    }
  }

  lemma NotMatched(languages: seq<string>, ranges: seq<string>, here: Place)
    requires !MatchedAt(languages, ranges, here)
    ensures !FirstMatch(languages, ranges, here)
  {
  }

  // ---------------------------------------------------------------- lookup

  /** A range and what is left of it each time it is stripped. */
  function Chain(range: string): (chain: seq<string>)
    ensures chain != [] && chain[0] == range
    ensures forall i :: 0 <= i < |chain| - 1 ==> StripRightmost(chain[i]) == Some(chain[i + 1])
    ensures StripRightmost(chain[|chain| - 1]) == None
    decreases |range|
  {
    match StripRightmost(range)
    case None => [range]
    case Some(shorter) =>
      StrippedIsShorter(range);
      [range] + Chain(shorter)
  }

  /** Everything lookup may try, in order: by range, and then by how much was stripped. */
  function Candidates(ranges: seq<string>): seq<string> {
    if ranges == [] then [] else Chain(ranges[0]) + Candidates(ranges[1..])
  }

  lemma Regroup(a: seq<string>, b: seq<string>, c: seq<string>, d: seq<string>)
    ensures a + (b + c + d) == a + b + c + d
  {
  }

  /** What lookup tries for one range comes after all that it tries for the ranges before, and before all others. */
  lemma {:induction false} CandidatesInOrder(some: seq<string>, range: string, more: seq<string>)
    ensures Candidates(some + [range] + more) == Candidates(some) + Chain(range) + Candidates(more)
  {
    hide Chain;
    var all := some + [range] + more;
    if some == [] {
      assert all[0] == range && all[1..] == more;
      assert Candidates(some) == [] && [] + Chain(range) == Chain(range);
    } else {
      CandidatesInOrder(some[1..], range, more);
      assert all[0] == some[0] && all[1..] == some[1..] + [range] + more;
      hide Candidates;
      Regroup(Chain(some[0]), Candidates(some[1..]), Chain(range), Candidates(more));
    }
  }

  predicate Accepts(candidate: string, language: string) {
    IsWildcard(candidate) || Matches(language, candidate)
  }

  ghost predicate AcceptsNone(candidate: string, languages: seq<string>) {
    forall p :: 0 <= p < |languages| ==> !Accepts(candidate, languages[p])
  }

  /** The earliest candidate to accept anything is the k-th, and the first language it accepts is the p-th. */
  ghost predicate LooksUp(languages: seq<string>, candidates: seq<string>, k: nat, p: nat) {
    && k < |candidates| && p < |languages| && Accepts(candidates[k], languages[p])
    && (forall q :: 0 <= q < p ==> !Accepts(candidates[k], languages[q]))
    && (forall j :: 0 <= j < k ==> AcceptsNone(candidates[j], languages))
  }

  lemma LooksUpOnce(languages: seq<string>, candidates: seq<string>, k: nat, p: nat, l: nat, q: nat)
    requires LooksUp(languages, candidates, k, p) && LooksUp(languages, candidates, l, q)
    ensures k == l && p == q
  {
    assert k < l ==> AcceptsNone(candidates[k], languages);
    assert l < k ==> AcceptsNone(candidates[l], languages);
  }

  ghost predicate LookupResult(languages: seq<string>, candidates: seq<string>, r: Option<string>) {
    match r
    case None => forall j :: 0 <= j < |candidates| ==> AcceptsNone(candidates[j], languages)
    case Some(language) => exists k: nat, p: nat :: LooksUp(languages, candidates, k, p) && languages[p] == language
  }

  /** The first that a filter by one range yields. */
  lemma FirstFiltered(languages: seq<string>, range: string, places: seq<Place>)
    requires !IsWildcard(range) && FilteredTo(languages, [range], End([range]), places)
    ensures places == [] ==> AcceptsNone(range, languages)
    ensures places != [] ==> LooksUp(languages, [range], 0, places[0].position)
  {
    forall p | 0 <= p < |languages| && Matches(languages[p], range)
      ensures places != [] && places[0].position <= p
    {
      var place := Place(0, p);
      assert MatchedAt(languages, [range], place);
      var q := FirstMatchExists(languages, [range], place);
      assert q in places;
      var k :| 0 <= k < |places| && places[k] == q;
    }
  }

  method FirstLanguage(languages: seq<string>, range: string) returns (r: Option<string>)
    ensures LookupResult(languages, [range], r)
  {
    var out, places := BasicFilterLanguages(languages, [range]);
    if IsWildcard([range][0]) {
      assert AskedForAll([range]);
      if out == [] {
        return None;
      }
      assert LooksUp(languages, [range], 0, 0);
      return Some(out[0]);
    }
    FirstFiltered(languages, range, places);
    if out == [] {
      return None;
    }
    r := Some(out[0]);
  }

  lemma LookupNone(languages: seq<string>, tried: seq<string>, range: string)
    requires LookupResult(languages, tried, None) && LookupResult(languages, [range], None)
    ensures LookupResult(languages, tried + [range], None)
  {
    assert AcceptsNone([range][0], languages);
  }

  lemma LookupFound(languages: seq<string>, tried: seq<string>, range: string, rest: seq<string>, language: string)
    requires LookupResult(languages, tried, None) && LookupResult(languages, [range], Some(language))
    ensures LookupResult(languages, tried + [range] + rest, Some(language))
  {
    var k: nat, p: nat :| LooksUp(languages, [range], k, p) && languages[p] == language;
    var all := tried + [range] + rest;
    assert all[|tried|] == range;
    assert LooksUp(languages, all, |tried|, p);
  }

  /** One range, stripped until a language is found or nothing is left of it. */
  method LookupRange(languages: seq<string>, range: string, ghost tried: seq<string>, ghost later: seq<string>)
    returns (r: Option<string>)
    requires LookupResult(languages, tried, None)
    ensures r.Some? ==> LookupResult(languages, tried + Chain(range) + later, r)
    ensures r.None? ==> LookupResult(languages, tried + Chain(range), None)
  {
    hide LookupResult, StripRightmost;
    var current := range;
    ghost var before := tried;
    while true
      invariant tried + Chain(range) == before + Chain(current)
      invariant LookupResult(languages, before, None)
      decreases |current|
    {
      r := FirstLanguage(languages, current);
      ghost var rest := Chain(current)[1..];
      assert Chain(current) == [current] + rest;
      if r.Some? {
        LookupFound(languages, before, current, rest + later, r.value);
        assert tried + Chain(range) + later == before + [current] + (rest + later);
        return;
      }
      LookupNone(languages, before, current);
      var shorter := StripRightmost(current);
      if shorter.None? {
        return None;
      }
      StrippedIsShorter(current);
      assert before + Chain(current) == (before + [current]) + Chain(shorter.value);
      before := before + [current];
      current := shorter.value;
    }
  }

  lemma CandidatesFrom(ranges: seq<string>, i: nat)
    requires i < |ranges|
    ensures Candidates(ranges[i..]) == Chain(ranges[i]) + Candidates(ranges[i + 1..])
  {
    assert ranges[i..][1..] == ranges[i + 1..];
  }

  lemma NothingTried(languages: seq<string>)
    ensures LookupResult(languages, [], None) && Candidates([]) == []
  {
  }

  /** The first language that the earliest candidate to accept any accepts, if there is one. */
  method LookupLanguage(languages: seq<string>, ranges: seq<string>) returns (r: Option<string>)
    ensures LookupResult(languages, Candidates(ranges), r)
  {
    hide LookupResult, Chain, Candidates;
    NothingTried(languages);
    ghost var tried := [];
    assert ranges[0..] == ranges && ranges[|ranges|..] == [];
    for i := 0 to |ranges|
      invariant Candidates(ranges) == tried + Candidates(ranges[i..])
      invariant LookupResult(languages, tried, None)
    {
      CandidatesFrom(ranges, i);
      ghost var later := Candidates(ranges[i + 1..]);
      assert Candidates(ranges) == tried + Chain(ranges[i]) + later;
      r := LookupRange(languages, ranges[i], tried, later);
      if r.Some? {
        return;
      }
      tried := tried + Chain(ranges[i]);
    }
    assert Candidates(ranges) == tried;
    r := None;
  }

  /** What lookup gives is determined. */
  lemma LookupIsUnique(languages: seq<string>, candidates: seq<string>, r: Option<string>, s: Option<string>)
    requires LookupResult(languages, candidates, r) && LookupResult(languages, candidates, s)
    ensures r == s
  {
    if r.Some? && s.Some? {
      var k: nat, p: nat :| LooksUp(languages, candidates, k, p) && languages[p] == r.value;
      var l: nat, q: nat :| LooksUp(languages, candidates, l, q) && languages[q] == s.value;
      LooksUpOnce(languages, candidates, k, p, l, q);
    }
  }
}
