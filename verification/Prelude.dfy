/** Result and option types shared by every module. */
module Prelude {

  datatype Option<+T> = None | Some(value: T)

  datatype Result<+T, +E> = Ok(value: T) | Err(error: E)

  /** What reading a file at startup gives: `Unreadable` is an I/O error or content that does not parse. */
  datatype FileRead<+T> = Found(value: T) | Missing | Unreadable

  /** A file that is not there yet counts as empty. */
  function Contents<T>(read: FileRead<T>, empty: T): Option<T> {
    match read
    case Found(v) => Some(v)
    case Missing => Some(empty)
    case Unreadable => None
  }

  type Byte = b: nat | b < 256
  type Bytes = seq<Byte>

  /** Rust's `saturating_sub` on unsigned integers. */
  function SaturatingSub(a: nat, b: nat): nat {
    if a <= b then 0 else a - b
  }

  /** Times in a list do not decrease. */
  predicate NonDecreasing(ts: seq<nat>) {
    forall i, j :: 0 <= i < j < |ts| ==> ts[i] <= ts[j]
  }

  /** `n` copies of `x`. */
  function Fill<T>(n: nat, x: T): (s: seq<T>)
    ensures |s| == n
    ensures forall i :: 0 <= i < n ==> s[i] == x
  {
    seq(n, _ => x)
  }

  /** The number of leading elements of `s` that equal `x`. */
  function LeadingCount<T(==)>(s: seq<T>, x: T): (n: nat)
    ensures n <= |s|
    ensures s[..n] == Fill(n, x)
    ensures n < |s| ==> s[n] != x
  {
    if s == [] || s[0] != x then 0
    else
      var n := 1 + LeadingCount(s[1..], x);
      assert s[..n] == [s[0]] + s[1..][..n - 1];
      n
  }

  /** The leading run is determined by its defining properties. */
  lemma {:induction false} LeadingCountIs<T>(s: seq<T>, x: T, n: nat)
    requires n <= |s| && s[..n] == Fill(n, x)
    requires n < |s| ==> s[n] != x
    ensures LeadingCount(s, x) == n
  {
    if 0 < n {
      assert s[0] == s[..n][0];
      assert s[1..][..n - 1] == s[..n][1..] == Fill(n - 1, x);
      LeadingCountIs(s[1..], x, n - 1);
    }
  }

  function Reverse<T>(s: seq<T>): (r: seq<T>)
    ensures |r| == |s|
    ensures forall i :: 0 <= i < |s| ==> r[i] == s[|s| - 1 - i]
  {
    seq(|s|, i requires 0 <= i < |s| => s[|s| - 1 - i])
  }

  lemma ReverseAppend<T>(a: seq<T>, b: seq<T>)
    ensures Reverse(a + b) == Reverse(b) + Reverse(a)
  {
  }

  function Flatten<T>(ss: seq<seq<T>>): seq<T> {
    if ss == [] then [] else Flatten(ss[..|ss| - 1]) + ss[|ss| - 1]
  }

  lemma {:induction false} InFlatten<T>(ss: seq<seq<T>>, x: T)
    ensures x in Flatten(ss) <==> exists s :: s in ss && x in s
  {
    if ss != [] {
      var front, last := ss[..|ss| - 1], ss[|ss| - 1];
      InFlatten(front, x);
      assert ss == front + [last];
    }
  }

  lemma FlattenNext<T>(ss: seq<seq<T>>, n: nat)
    requires n < |ss|
    ensures Flatten(ss[..n + 1]) == Flatten(ss[..n]) + ss[n]
  {
    assert ss[..n + 1][..n] == ss[..n];
  }

  lemma {:induction false} FlattenConcat<T>(a: seq<seq<T>>, b: seq<seq<T>>)
    ensures Flatten(a + b) == Flatten(a) + Flatten(b)
    decreases |b|
  {
    if b == [] {
      assert a + b == a;
    } else {
      var n := |b| - 1;
      assert (a + b)[..|a + b| - 1] == a + b[..n];
      FlattenConcat(a, b[..n]);
    }
  }
}
