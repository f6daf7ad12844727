/** Byte strings, their lexicographic order, and the big-endian log keys
    (src/placement-center/src/openraft/store/mod.rs). */
module ByteOrder {
  import opened RaftTypes

  type Byte = b: nat | b < 256

  type Key = seq<Byte>

  /** RocksDB's default comparator: bytewise, a proper prefix first. */
  predicate Less(a: Key, b: Key) {
    if b == [] then false
    else if a == [] then true
    else if a[0] != b[0] then a[0] < b[0]
    else Less(a[1..], b[1..])
  }

  lemma {:induction false} LessTrichotomy(a: Key, b: Key)
    ensures Less(a, b) || a == b || Less(b, a)
    ensures !(Less(a, b) && Less(b, a))
    ensures !Less(a, a)
  {
    if a != [] {
      LessTrichotomy(a[1..], a[1..]);
      if b != [] {
        LessTrichotomy(a[1..], b[1..]);
        assert a == [a[0]] + a[1..] && b == [b[0]] + b[1..];
      }
    }
  }

  lemma {:induction false} LessTransitive(a: Key, b: Key, c: Key)
    requires Less(a, b) && Less(b, c)
    ensures Less(a, c)
  {
    if a != [] && a[0] == b[0] && b[0] == c[0] {
      LessTransitive(a[1..], b[1..], c[1..]);
    }
  }

  /** The `n` low-order base-256 digits of `x`, most significant first. */
  function BigEndian(x: nat, n: nat): (bs: Key)
    ensures |bs| == n
  {
    if n == 0 then [] else BigEndian(x / 256, n - 1) + [x % 256]
  }

  function Value(bs: Key): nat {
    if bs == [] then 0 else 256 * Value(bs[..|bs| - 1]) + bs[|bs| - 1]
  }

  function Pow256(n: nat): nat {
    if n == 0 then 1 else 256 * Pow256(n - 1)
  }

  lemma {:induction false} ValueOfBigEndian(x: nat, n: nat)
    requires x < Pow256(n)
    ensures Value(BigEndian(x, n)) == x
  {
    if n > 0 {
      ValueOfBigEndian(x / 256, n - 1);
      assert BigEndian(x, n)[..n - 1] == BigEndian(x / 256, n - 1);
    }
  }

  lemma {:induction false} BigEndianOfValue(bs: Key)
    ensures Value(bs) < Pow256(|bs|)
    ensures BigEndian(Value(bs), |bs|) == bs
  {
    if bs != [] {
      var init := bs[..|bs| - 1];
      BigEndianOfValue(init);
      assert Value(bs) / 256 == Value(init) && Value(bs) % 256 == bs[|bs| - 1];
      assert bs == init + [bs[|bs| - 1]];
    }
  }

  lemma {:induction false} LessSnoc(a: Key, x: Byte, b: Key, y: Byte)
    requires |a| == |b|
    ensures Less(a + [x], b + [y]) <==> Less(a, b) || (a == b && x < y)
  {
    if a == [] {
      assert a + [x] == [x] && b + [y] == [y];
    } else {
      LessSnoc(a[1..], x, b[1..], y);
      assert (a + [x])[1..] == a[1..] + [x] && (b + [y])[1..] == b[1..] + [y];
      assert a == [a[0]] + a[1..] && b == [b[0]] + b[1..];
    }
  }

  lemma {:induction false} OrderOfValue(a: Key, b: Key)
    requires |a| == |b|
    ensures Less(a, b) <==> Value(a) < Value(b)
    ensures Less(b, a) <==> Value(b) < Value(a)
  {
    if a == [] {
      assert a == b;
    } else {
      var a0, b0 := a[..|a| - 1], b[..|b| - 1];
      var x, y := a[|a| - 1], b[|b| - 1];
      assert a == a0 + [x] && b == b0 + [y];
      OrderOfValue(a0, b0);
      LessTrichotomy(a0, b0);
      LessSnoc(a0, x, b0, y);
      LessSnoc(b0, y, a0, x);
    }
  }

  function IdToBin(id: U64): (key: Key)
    ensures |key| == 8
  {
    BigEndian(id, 8)
  }

  /** The source slices `buf[0..8]`, so a shorter buffer panics. */
  function BinToId(buf: Key): (id: U64)
    requires |buf| >= 8
  {
    BigEndianOfValue(buf[..8]);
    assert Pow256(8) == MAX_U64 + 1 by { Pow256Of8(); }
    Value(buf[..8])
  }

  lemma Pow256Of8()
    ensures Pow256(8) == MAX_U64 + 1
  {
    assert Pow256(4) == 0x1_0000_0000;
    assert Pow256(6) == 0x1_0000_0000_0000;
  }

  lemma IdRoundTrip(id: U64)
    ensures BinToId(IdToBin(id)) == id
  {
    Pow256Of8();
    ValueOfBigEndian(id, 8);
    assert IdToBin(id)[..8] == IdToBin(id);
  }

  lemma BinRoundTrip(key: Key)
    requires |key| == 8
    ensures IdToBin(BinToId(key)) == key
  {
    assert key[..8] == key;
    BigEndianOfValue(key);
  }

  /** Iteration order of 8-byte keys is numeric order of the ids they hold. */
  lemma KeyOrderIsIdOrder(a: Key, b: Key)
    requires |a| == 8 && |b| == 8
    ensures Less(a, b) <==> BinToId(a) < BinToId(b)
    ensures a == b <==> BinToId(a) == BinToId(b)
  {
    assert a[..8] == a && b[..8] == b;
    OrderOfValue(a, b);
    BinRoundTrip(a);
    BinRoundTrip(b);
  }
}
