// Shared vocabulary: optional values, 32-bit counters and duplicate-free sequences.

module Common {

  datatype Option<+T> = None | Some(value: T)

  // Counters on the wire are 32 bits wide; the source masks with 0xffffffff, which on
  // Python's unbounded integers is the non-negative remainder.
  const WRAP: nat := 0x1_0000_0000

  function Wrap(n: int): (r: nat)
    ensures r < WRAP
  {
    n % WRAP
  }

  /** What is counted is kept as the one number of 32 bits that differs from it by a multiple of 2 to the 32nd. */
  lemma WrapIsLow32(n: int, r: nat)
    requires r < 0x1_0000_0000
    ensures Wrap(n) == r <==> exists k: int :: n == r + k * 0x1_0000_0000
  {
    if k: int :| n == r + k * 0x1_0000_0000 {
      ModShift(r, k);
    }
    if Wrap(n) == r {
      assert n == r + n / WRAP * 0x1_0000_0000;
    }
  }

  /** Subtracting two wrapped totals recovers their distance as long as it fits 32 bits. */
  lemma WrapDistance(a: nat, b: nat)
    requires a <= b
    ensures Wrap(Wrap(b) - Wrap(a)) == Wrap(b - a)
    ensures b - a < WRAP ==> Wrap(Wrap(b) - Wrap(a)) == b - a
  {
    var qa, qb := a / WRAP, b / WRAP;
    assert Wrap(b) - Wrap(a) == (b - a) - (qb - qa) * WRAP;
    ModShift(b - a, qa - qb);
  }

  lemma {:induction false} ModShift(n: int, k: int)
    ensures Wrap(n + k * WRAP) == Wrap(n)
  {
    var q := n / WRAP;
    assert n + k * WRAP == (q + k) * WRAP + Wrap(n);
  }

  lemma WrapNext(a: nat)
    ensures Wrap(Wrap(a) + 1) == Wrap(a + 1)
  {
    ModShift(Wrap(a) + 1, a / WRAP);
  }

  ghost predicate NoDup<T>(s: seq<T>) {
    forall i, j :: 0 <= i < j < |s| ==> s[i] != s[j]
  }

  ghost predicate Disjoint<T(!new)>(s: seq<T>, t: seq<T>) {
    forall x :: x in s ==> x !in t
  }

  lemma NoDupConcat<T(!new)>(s: seq<T>, t: seq<T>)
    ensures NoDup(s + t) <==> NoDup(s) && NoDup(t) && Disjoint(s, t)
  {
    if NoDup(s + t) {
      forall i, j | 0 <= i < j < |s| ensures s[i] != s[j] {
        assert (s + t)[i] == s[i] && (s + t)[j] == s[j];
      }
      forall i, j | 0 <= i < j < |t| ensures t[i] != t[j] {
        assert (s + t)[|s| + i] == t[i] && (s + t)[|s| + j] == t[j];
      }
      forall i, j | 0 <= i < |s| && 0 <= j < |t| ensures s[i] != t[j] {
        assert (s + t)[i] == s[i] && (s + t)[|s| + j] == t[j];
      }
    }
    if NoDup(s) && NoDup(t) && Disjoint(s, t) {
      forall i, j | 0 <= i < j < |s + t| ensures (s + t)[i] != (s + t)[j] {
        if i < |s| <= j {
          assert s[i] in s && t[j - |s|] in t;
        }
      }
    }
  }

  function Reverse<T>(s: seq<T>): (r: seq<T>)
    ensures |r| == |s|
    ensures forall k :: 0 <= k < |s| ==> r[k] == s[|s| - 1 - k]
  {
    if s == [] then [] else Reverse(s[1..]) + [s[0]]
  }

  lemma ReverseMembers<T(!new)>(s: seq<T>)
    ensures forall x :: x in Reverse(s) <==> x in s
    ensures NoDup(s) ==> NoDup(Reverse(s))
  {
    forall x ensures x in Reverse(s) <==> x in s {
      if x in s {
        var k :| 0 <= k < |s| && s[k] == x;
        assert Reverse(s)[|s| - 1 - k] == x;
      }
    }
  }

  /** A sequence in which every value occurs at most once is duplicate-free. */
  lemma CountsGiveNoDup<T>(s: seq<T>)
    requires forall x :: x in multiset(s) ==> multiset(s)[x] <= 1
    ensures NoDup(s)
  {
    forall i, j | 0 <= i < j < |s| ensures s[i] != s[j] {
      var x, front, back := s[i], s[..j], s[j..];
      assert s == front + back && front[i] == x && back[0] == s[j];
      assert multiset(s)[x] == multiset(front)[x] + multiset(back)[x];
      assert x in multiset(front) && x in multiset(s);
      assert s[j] in multiset(back);
    }
  }

  lemma {:induction false} ReverseCounts<T>(s: seq<T>)
    ensures multiset(Reverse(s)) == multiset(s)
  {
    if s != [] {
      ReverseCounts(s[1..]);
      assert s == [s[0]] + s[1..];
    }
  }
}
