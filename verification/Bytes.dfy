/** Bytes, byte strings and big-endian integers, shared by every framing module. */
module Bytes {

  type byte = b: int | 0 <= b < 256

  type bytes = seq<byte>

  datatype Option<+T> = None | Some(value: T)

  datatype Result<+T> = Ok(value: T) | Err

  /** The number of values a field of `width` bytes can hold. */
  function Capacity(width: nat): (c: nat)
    ensures c >= 1
  {
    if width == 0 then 1 else 256 * Capacity(width - 1)
  }

  /** The low `width` bytes of `n`, most significant first; like a Rust `as` cast
      followed by `to_be_bytes`, a value that does not fit loses its high bytes. */
  function Be(width: nat, n: nat): (s: bytes)
    ensures |s| == width
  {
    if width == 0 then [] else Be(width - 1, n / 256) + [n % 256]
  }

  /** The big-endian value of a byte string. */
  function FromBe(s: bytes): (n: nat)
    ensures n < Capacity(|s|)
  {
    if s == [] then 0 else 256 * FromBe(s[..|s| - 1]) + s[|s| - 1]
  }

  lemma {:induction false} FromBeOfBe(width: nat, n: nat)
    requires n < Capacity(width)
    ensures FromBe(Be(width, n)) == n
  {
    if width > 0 {
      FromBeOfBe(width - 1, n / 256);
      assert Be(width, n)[..width - 1] == Be(width - 1, n / 256);
    }
  }

  lemma LowByte(high: nat, low: byte)
    ensures (256 * high + low) / 256 == high && (256 * high + low) % 256 == low
  {
  }

  lemma {:induction false} BeOfFromBe(s: bytes)
    ensures Be(|s|, FromBe(s)) == s
  {
    if s != [] {
      var front, last := s[..|s| - 1], s[|s| - 1];
      BeOfFromBe(front);
      LowByte(FromBe(front), last);
      assert s == front + [last];
    }
  }

  /** What a too wide value turns into: its remainder. */
  lemma {:induction false} FromBeOfTruncated(width: nat, n: nat)
    ensures FromBe(Be(width, n)) <= n
    ensures n >= Capacity(width) ==> FromBe(Be(width, n)) <= n - Capacity(width)
  {
    if width > 0 {
      FromBeOfTruncated(width - 1, n / 256);
      assert Be(width, n)[..width - 1] == Be(width - 1, n / 256);
    }
  }

  lemma TimesByte(c: nat, x: nat, low: nat, rest: nat)
    ensures 256 * (c * x + rest) + low == (256 * c) * x + (256 * rest + low)
  {
  }

  /** Big-endian: the first byte is the most significant one. */
  lemma {:induction false} MostSignificantFirst(s: bytes)
    requires s != []
    ensures FromBe(s) == Capacity(|s| - 1) * s[0] + FromBe(s[1..])
  {
    var front, last := s[..|s| - 1], s[|s| - 1];
    if |s| == 1 {
      assert front == [];
    } else {
      MostSignificantFirst(front);
      assert front[1..] == s[1..][..|s| - 2];
      TimesByte(Capacity(|s| - 2), s[0], last, FromBe(front[1..]));
    }
  }

  lemma FromThree(s: bytes)
    requires |s| == 3
    ensures FromBe(s) == (s[0] as int) * 0x1_0000 + (s[1] as int) * 0x100 + s[2]
  {
    assert s[..2][..1] == s[..1] && s[..1][..0] == [];
    assert FromBe(s[..1]) == s[0] && FromBe(s[..2]) == (s[0] as int) * 0x100 + s[1];
  }

  lemma ThreeZeros()
    ensures Be(3, 0) == [0, 0, 0]
  {
    assert Be(1, 0) == [0] && Be(2, 0) == Be(1, 0) + [0];
  }

  lemma Capacities()
    ensures Capacity(1) == 0x100
    ensures Capacity(2) == 0x1_0000
    ensures Capacity(3) == 0x100_0000
    ensures Capacity(4) == 0x1_0000_0000
  {
    assert Capacity(1) == 256 * Capacity(0);
    assert Capacity(2) == 256 * Capacity(1);
    assert Capacity(3) == 256 * Capacity(2);
  }

  lemma Assoc<T>(a: seq<T>, b: seq<T>, c: seq<T>)
    ensures (a + b) + c == a + (b + c)
  {
  }

  lemma Prefixed<T>(a: seq<T>, b: seq<T>)
    ensures (a + b)[..|a|] == a && (a + b)[|a|..] == b
  {
  }

  lemma ThreeParts<T>(s: seq<T>, i: nat, j: nat)
    requires i <= j <= |s|
    ensures s == s[..i] + s[i..j] + s[j..]
  {
  }

  lemma JoinSlices<T>(s: seq<T>, i: nat, j: nat)
    requires i <= j <= |s|
    ensures s[..i] + s[i..j] == s[..j]
    ensures s[..j] + s[j..] == s
  {
  }

  lemma SliceOfDrop<T>(s: seq<T>, p: nat, i: nat, j: nat)
    requires i <= j && p + j <= |s|
    ensures s[p..][i..j] == s[p + i..p + j]
  {
  }

  lemma DropOfDrop<T>(s: seq<T>, p: nat, i: nat)
    requires p + i <= |s|
    ensures s[p..][i..] == s[p + i..]
  {
  }

  lemma TakeOfDrop<T>(s: seq<T>, k: nat)
    requires k < |s|
    ensures s[1..][..k] == s[..k + 1][1..]
  {
  }

  /** Concatenation of a list of byte strings. */
  function Concat(parts: seq<bytes>): (s: bytes)
  {
    if parts == [] then [] else parts[0] + Concat(parts[1..])
  }

  lemma {:induction false} ConcatAppend(a: seq<bytes>, b: seq<bytes>)
    ensures Concat(a + b) == Concat(a) + Concat(b)
  {
    if a == [] {
      assert a + b == b;
    } else {
      ConcatAppend(a[1..], b);
      assert (a + b)[1..] == a[1..] + b;
      Assoc(a[0], Concat(a[1..]), Concat(b));
    }
  }

  lemma ConcatSnoc(a: seq<bytes>, x: bytes)
    ensures Concat(a + [x]) == Concat(a) + x
  {
    ConcatAppend(a, [x]);
    assert Concat([x]) == x + Concat([]);
  }

  /** An optional value as a list. */
  function Present<T>(o: Option<T>): (s: seq<T>)
  {
    if o.Some? then [o.value] else []
  }

  /** The pieces between separators; always at least one. */
  function SplitOn<T(==)>(s: seq<T>, sep: T): (parts: seq<seq<T>>)
    ensures parts != []
  {
    if s == [] then [[]]
    else
      var rest := SplitOn(s[1..], sep);
      if s[0] == sep then [[]] + rest else [[s[0]] + rest[0]] + rest[1..]
  }

  function Join<T>(parts: seq<seq<T>>, sep: T): (s: seq<T>)
    requires parts != []
  {
    if |parts| == 1 then parts[0] else parts[0] + ([sep] + Join(parts[1..], sep))
  }

  lemma {:induction false} JoinOfSplit<T>(s: seq<T>, sep: T)
    ensures Join(SplitOn(s, sep), sep) == s
    ensures forall i :: 0 <= i < |SplitOn(s, sep)| ==> sep !in SplitOn(s, sep)[i]
  {
    if s != [] {
      JoinOfSplit(s[1..], sep);
      var rest, parts := SplitOn(s[1..], sep), SplitOn(s, sep);
      assert s == [s[0]] + s[1..];
      if s[0] == sep {
        assert parts[1..] == rest;
      } else if |rest| > 1 {
        assert parts[1..] == rest[1..];
        Assoc([s[0]], rest[0], [sep] + Join(rest[1..], sep));
      }
    }
  }

  lemma {:induction false} SplitOfNoSep<T>(s: seq<T>, sep: T)
    requires sep !in s
    ensures SplitOn(s, sep) == [s]
  {
    if s != [] {
      SplitOfNoSep(s[1..], sep);
      assert s == [s[0]] + s[1..];
    }
  }

  lemma {:induction false} SplitOfJoin<T>(first: seq<T>, rest: seq<T>, sep: T)
    requires sep !in first
    ensures SplitOn(first + ([sep] + rest), sep) == [first] + SplitOn(rest, sep)
  {
    var s := first + ([sep] + rest);
    if first == [] {
      assert s[1..] == rest;
    } else {
      assert s[1..] == first[1..] + ([sep] + rest);
      SplitOfJoin(first[1..], rest, sep);
      assert first == [first[0]] + first[1..];
    }
  }
}
