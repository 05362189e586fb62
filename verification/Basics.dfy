/** Notions that several models share. */
module Options {
  datatype Option<T> = None | Some(value: T)
}

/** Machine words of 64 bits. */
module Words {
  const WORD := 0x1_0000_0000_0000_0000

  type Word = n: nat | n < WORD

  /** A number as a machine computes it. */
  function Wrap(n: nat): Word {
    if n < WORD then n else n % WORD
  }

  function Add(a: Word, b: Word): Word {
    if a + b < WORD then a + b else a + b - WORD
  }

  function Sub(a: Word, b: Word): Word {
    if b <= a then a - b else a + WORD - b
  }
}

module Sequences {

  ghost predicate Distinct<T>(s: seq<T>) {
    forall i, j :: 0 <= i < j < |s| ==> s[i] != s[j]
  }

  lemma DistinctWithout<T>(s: seq<T>, k: nat)
    requires Distinct(s) && k < |s|
    ensures Distinct(s[..k] + s[k + 1..]) && s[k] !in s[..k] + s[k + 1..]
  {
    var r := s[..k] + s[k + 1..];
    assert forall i :: 0 <= i < |r| ==> r[i] == s[if i < k then i else i + 1];
  }

  /** The sequence with the elements at two indices exchanged. */
  function Swapped<T>(s: seq<T>, i: nat, j: nat): seq<T>
    requires i < |s| && j < |s|
  {
    s[i := s[j]][j := s[i]]
  }
}

module PowersOfTwo {

  function Pow2(n: nat): (p: nat)
    ensures 0 < p
  {
    if n == 0 then 1 else 2 * Pow2(n - 1)
  }

  lemma {:induction false} Pow2Monotone(m: nat, n: nat)
    requires m <= n
    ensures Pow2(m) <= Pow2(n)
  {
    if m < n {
      Pow2Monotone(m, n - 1);
    }
  }

  lemma {:induction false} Pow2Sum(m: nat, n: nat)
    ensures Pow2(m + n) == Pow2(m) * Pow2(n)
  {
    if n > 0 {
      Pow2Sum(m, n - 1);
      assert Pow2(m + n) == 2 * Pow2(m + n - 1);
      Double(Pow2(m), Pow2(n - 1));
    }
  }

  lemma Double(x: nat, y: nat)
    ensures 2 * (x * y) == x * (2 * y)
  {
  }
}
