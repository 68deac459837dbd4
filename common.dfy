/** Shared vocabulary of the OpenTSDB front end model: optional values, results,
    Go's int64 bit pattern, the byte search of Go's `strings.IndexByte`, and the slot-clearing
    loop that both row arenas run in `Reset`. */
module Common {

  datatype Option<+T> = None | Some(value: T)

  datatype Result<+T, +E> = Ok(value: T) | Err(error: E)

  /** Go's `int64`: the integers from -2^63 to 2^63 - 1. */
  type I64 = x: int | -0x8000_0000_0000_0000 <= x < 0x8000_0000_0000_0000

  /** Go's wrapping int64 arithmetic: `x` taken modulo 2^64 into the int64 range. */
  function Wrap(x: int): (r: I64)
    ensures (r - x) % 0x1_0000_0000_0000_0000 == 0
    ensures -0x8000_0000_0000_0000 <= x < 0x8000_0000_0000_0000 ==> r == x
  {
    (x + 0x8000_0000_0000_0000) % 0x1_0000_0000_0000_0000 - 0x8000_0000_0000_0000
  }

  /** `strings.IndexByte(s, c)`: the index of the first `c` in `s`, or -1. */
  function IndexOf(s: string, c: char): (n: int)
    ensures -1 <= n < |s|
    ensures n >= 0 ==> s[n] == c
  {
    IndexFrom(s, c, 0)
  }

  /** The index of the first `c` in `s` at or after `i`, or -1. */
  function IndexFrom(s: string, c: char, i: nat): (n: int)
    requires i <= |s|
    ensures -1 <= n < |s|
    ensures n >= 0 ==> i <= n && s[n] == c
    decreases |s| - i
  {
    if i == |s| then -1
    else if s[i] == c then i
    else IndexFrom(s, c, i + 1)
  }

  /** `IndexFrom` finds the first `c` at or after `i`, and -1 only when there is none. */
  lemma {:induction false} IndexFromFirst(s: string, c: char, i: nat)
    requires i <= |s|
    ensures IndexFrom(s, c, i) < 0 <==> c !in s[i..]
    ensures IndexFrom(s, c, i) >= 0 ==> c !in s[i..IndexFrom(s, c, i)]
    decreases |s| - i
  {
    if i < |s| && s[i] != c {
      IndexFromFirst(s, c, i + 1);
      assert s[i..] == [s[i]] + s[i + 1..];
      var n := IndexFrom(s, c, i + 1);
      if n >= 0 {
        assert s[i..n] == [s[i]] + s[i + 1..n];
      }
    }
  }

  /** `IndexOf` finds the first `c`, and -1 only when there is none. */
  lemma IndexOfFirst(s: string, c: char)
    ensures IndexOf(s, c) < 0 <==> c !in s
    ensures IndexOf(s, c) >= 0 ==> c !in s[..IndexOf(s, c)]
  {
    IndexFromFirst(s, c, 0);
    assert s[0..] == s;
  }

  /** `IndexOf` finds the first `c` of a text that has a known `c`-free prefix. */
  lemma {:induction false} IndexOfAfter(a: string, c: char, b: string)
    requires c !in a
    ensures IndexOf(a + [c] + b, c) == |a|
  {
    var s := a + [c] + b;
    IndexOfFirst(s, c);
    var n := IndexOf(s, c);
    assert s[|a|] == c;
  }

  /** The backing store after a reset loop: the first `n` slots are cleared to
      `zero`, the spare capacity past them is left as it was. */
  function ZeroSlots<T>(buf: seq<T>, n: nat, zero: T): (r: seq<T>)
    requires n <= |buf|
    ensures |r| == |buf|
    ensures forall i :: 0 <= i < n ==> r[i] == zero
    ensures r[n..] == buf[n..]
  {
    if n == 0 then buf else ZeroSlots(buf[..n - 1], n - 1, zero) + [zero] + buf[n..]
  }

  /** `ZeroSlots` is the only store with its three properties. */
  lemma ZeroSlotsUnique<T>(buf: seq<T>, n: nat, zero: T, r: seq<T>)
    requires n <= |buf| && |r| == |buf|
    requires forall i :: 0 <= i < n ==> r[i] == zero
    requires r[n..] == buf[n..]
    ensures r == ZeroSlots(buf, n, zero)
  {
    var z := ZeroSlots(buf, n, zero);
    forall i | 0 <= i < |r|
      ensures r[i] == z[i]
    {
      if i >= n {
        assert r[i] == r[n..][i - n] && z[i] == z[n..][i - n];
      }
    }
  }

  /** Growing a slice by one slot (reusing spare capacity or appending `zero`)
      and storing `x` in the new slot extends the slice by `x`. */
  lemma PushSlot<T>(buf: seq<T>, len: nat, zero: T, x: T)
    requires len <= |buf|
    ensures var grown := if len < |buf| then buf else buf + [zero];
      len < |grown| && grown[len := x][..len + 1] == buf[..len] + [x]
  {
  }

  /** Regrouping a concatenation of three. */
  lemma Assoc<T>(a: seq<T>, b: seq<T>, c: seq<T>)
    ensures a + b + c == a + (b + c)
  {
  }

  /** Regrouping a concatenation of four. */
  lemma ConcatAssoc<T>(a: seq<T>, b: seq<T>, c: seq<T>, d: seq<T>)
    ensures a + b + c + d == a + b + (c + d)
  {
  }

  function Max(a: int, b: int): (m: int)
    ensures m >= a && m >= b && (m == a || m == b)
  {
    if a >= b then a else b
  }

  /** Two stores that agree past `i + 1` with a third agreeing with it past `i`
      agree with it past `i + 1`. */
  lemma SuffixOfSuffix<T>(a: seq<T>, b: seq<T>, c: seq<T>, i: nat)
    requires i + 1 <= |a| && i + 1 <= |b| && i <= |c|
    requires a[i + 1..] == b[i + 1..] && b[i..] == c[i..]
    ensures a[i + 1..] == c[i + 1..]
  {
    assert b[i + 1..] == b[i..][1..] && c[i + 1..] == c[i..][1..];
  }

  /** A prefix of a prefix is a prefix. */
  lemma PrefixOfPrefix<T>(a: seq<T>, b: seq<T>, c: seq<T>)
    requires a <= b && b <= c
    ensures a <= c
  {
    assert a == b[..|a|] && b == c[..|b|];
    assert c[..|b|][..|a|] == c[..|a|];
  }
}
