/** Vocabulary shared by the other modules. */
module Base {

  datatype Option<+T> = None | Some(value: T)

  type Byte = b: int | 0 <= b < 256

  type I32 = i: int | -0x8000_0000 <= i < 0x8000_0000

  /** The bytes of a list of socket reads, in order. */
  function Flat(chunks: seq<seq<Byte>>): seq<Byte> {
    if chunks == [] then [] else chunks[0] + Flat(chunks[1..])
  }

  lemma FlatCons(first: seq<Byte>, rest: seq<seq<Byte>>)
    ensures Flat([first] + rest) == first + Flat(rest)
  {
    assert ([first] + rest)[1..] == rest;
  }

  lemma {:induction false} FlatAppend(a: seq<seq<Byte>>, b: seq<seq<Byte>>)
    ensures Flat(a + b) == Flat(a) + Flat(b)
  {
    if a == [] {
      assert a + b == b;
    } else {
      hide Flat;
      FlatAppend(a[1..], b);
      FrontOfConcat(a, b);
      FlatCons(a[0], a[1..]);
      FlatCons(a[0], a[1..] + b);
      Associate(a[0], Flat(a[1..]), Flat(b));
    }
  }

  lemma FrontOfConcat<T>(a: seq<T>, b: seq<T>)
    requires a != []
    ensures [a[0]] + a[1..] == a && [a[0]] + (a[1..] + b) == a + b
  {
  }

  lemma CutAndJoin<T>(s: seq<T>, n: nat, tail: seq<T>)
    requires n <= |s|
    ensures s[..n] + (s[n..] + tail) == s + tail
  {
  }

  lemma Associate<T>(a: seq<T>, b: seq<T>, c: seq<T>)
    ensures a + (b + c) == a + b + c
  {
  }

  /** With no empty member, a list of two or more is longer in total than any one member. */
  lemma {:induction false} FlatLongerThan(xs: seq<seq<Byte>>, i: nat)
    requires i < |xs| && forall k :: 0 <= k < |xs| ==> |xs[k]| > 0
    ensures |Flat(xs)| >= |xs[i]| + |xs| - 1
  {
    assert Flat(xs) == xs[0] + Flat(xs[1..]);
    if |xs| > 1 {
      FlatLongerThan(xs[1..], if i > 0 then i - 1 else 0);
    }
  }

  /** Two ways of splitting one sequence: the shorter front starts the longer one. */
  lemma Resplit<T>(a: seq<T>, b: seq<T>, c: seq<T>, d: seq<T>)
    requires a + b == c + d && |a| <= |c|
    ensures a == c[..|a|] && b == c[|a|..] + d
  {
    assert a == (a + b)[..|a|] == (c + d)[..|a|] == c[..|a|];
    assert b == (a + b)[|a|..] == (c + d)[|a|..] == c[|a|..] + d;
  }

  predicate Suffix<T(==)>(s: seq<T>, of: seq<T>) {
    |s| <= |of| && s == of[|of| - |s|..]
  }

  lemma SuffixOfItself<T>(s: seq<T>)
    ensures Suffix(s, s)
  {
  }

  lemma SuffixTransitive<T>(a: seq<T>, b: seq<T>, c: seq<T>)
    requires Suffix(a, b) && Suffix(b, c)
    ensures Suffix(a, c)
  {
    assert c == c[..|c| - |b|] + b && b == b[..|b| - |a|] + a;
  }

  /** `value as i32` for a 32-bit pattern given modulo 2^32. */
  function AsI32(n: nat): I32 {
    var u := n % 0x1_0000_0000;
    if u < 0x8000_0000 then u else u - 0x1_0000_0000
  }

  /** `value as usize` on a 64-bit target: negative numbers wrap around. */
  function AsUsize(i: I32): nat {
    if i < 0 then 0x1_0000_0000_0000_0000 + i else i
  }
}
