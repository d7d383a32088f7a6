/** Digest operations on 64-bit words (hash.h) against their meaning on bytes. */
module Digests {
  import opened Lists
  import opened Arith
  import opened HashTable

  /** 256 to the k. */
  function Pow(k: nat): (p: nat)
    ensures p > 0
  {
    if k == 0 then 1 else 256 * Pow(k - 1)
  }

  lemma {:induction false} ValueBound(d: seq<Byte>)
    ensures Value(d) < Pow(|d|)
    decreases |d|
  {
    if d != [] { ValueBound(d[1..]); }
  }

  /** A word determines its bytes. */
  lemma {:induction false} ValueInjective(a: seq<Byte>, b: seq<Byte>)
    requires |a| == |b|
    ensures Value(a) == Value(b) <==> a == b
    decreases |a|
  {
    if a != [] {
      ValueInjective(a[1..], b[1..]);
      DivUnique(Value(a), 256, Value(a[1..]), a[0]);
      DivUnique(Value(b), 256, Value(b[1..]), b[0]);
      assert a == [a[0]] + a[1..] && b == [b[0]] + b[1..];
    }
  }

  lemma {:induction false} ValueSplit(a: seq<Byte>, b: seq<Byte>)
    ensures Value(a + b) == Value(a) + Pow(|a|) * Value(b)
    decreases |a|
  {
    if a == [] {
      assert a + b == b;
    } else {
      assert (a + b)[1..] == a[1..] + b;
      ValueSplit(a[1..], b);
      assert 256 * (Pow(|a| - 1) * Value(b)) == Pow(|a|) * Value(b);
    }
  }

  /** Masking a word to its low k bytes: the value of those bytes. */
  lemma MaskIsPrefix(d: seq<Byte>, k: nat)
    requires k <= |d|
    ensures Value(d) % Pow(k) == Value(d[..k])
  {
    hide Value, Pow;
    assert d == d[..k] + d[k..];
    ValueSplit(d[..k], d[k..]);
    ValueBound(d[..k]);
    Remainder(Value(d), Pow(k), Value(d[k..]), Value(d[..k]));
  }

  lemma Remainder(x: nat, c: nat, q: nat, r: nat)
    requires x == r + c * q && r < c
    ensures x % c == r
  {
    assert q * c == c * q;
    DivUnique(x, c, q, r);
  }

  /** The 64-bit word at byte i, masked to its low n bytes. */
  function Word(h: seq<Byte>, i: nat, n: nat): nat
    requires i + 8 <= |h| && n <= 8
  {
    Value(h[i..i + 8]) % Pow(n)
  }

  lemma WordIs(h: seq<Byte>, i: nat, n: nat)
    requires i + 8 <= |h| && n <= 8
    ensures Word(h, i, n) == Value(h[i..i + n])
  {
    MaskIsPrefix(h[i..i + 8], n);
    assert h[i..i + 8][..n] == h[i..i + n];
  }

  lemma WordEq(a: seq<Byte>, b: seq<Byte>, i: nat, n: nat)
    requires i + 8 <= |a| == |b| && n <= 8
    ensures Word(a, i, n) == Word(b, i, n) <==> a[i..i + n] == b[i..i + n]
  {
    WordIs(a, i, n);
    WordIs(b, i, n);
    ValueInjective(a[i..i + n], b[i..i + n]);
  }

  lemma SubSlice(a: seq<Byte>, n: nat, i: nat, j: nat)
    requires i <= j <= n <= |a|
    ensures a[..n][i..j] == a[i..j]
  {
  }

  /** hash_compare: 0 exactly when the first hlen bytes agree. */
  method Compare(a: seq<Byte>, b: seq<Byte>, hlen: nat) returns (differ: bool)
    requires |a| == |b| == 64 && hlen <= 64
    ensures !differ <==> a[..hlen] == b[..hlen]
  {
    hide Word;
    var left := hlen % 8;
    var whole := hlen - left;
    var i := 0;
    while i < whole
      invariant 0 <= i <= whole && i % 8 == 0 && whole % 8 == 0 && a[..i] == b[..i]
    {
      WordEq(a, b, i, 8);
      if Word(a, i, 8) != Word(b, i, 8) {
        SubSlice(a, hlen, i, i + 8);
        SubSlice(b, hlen, i, i + 8);
        return true;
      }
      assert a[..i + 8] == a[..i] + a[i..i + 8] && b[..i + 8] == b[..i] + b[i..i + 8];
      i := i + 8;
    }
    if left > 0 {
      WordEq(a, b, i, left);
      assert a[..hlen] == a[..i] + a[i..i + left] && b[..hlen] == b[..i] + b[i..i + left];
      if Word(a, i, left) != Word(b, i, left) {
        assert a[..hlen][i..] == a[i..i + left] && b[..hlen][i..] == b[i..i + left];
        return true;
      }
    }
    return false;
  }

  lemma {:induction false} ValueZero(d: seq<Byte>)
    ensures Value(d) == 0 <==> IsZero(d)
    decreases |d|
  {
    if d != [] {
      ValueZero(d[1..]);
      assert d == [d[0]] + d[1..];
      assert IsZero(d) <==> d[0] == 0 && IsZero(d[1..]) by {
        if IsZero(d) { forall j | 0 <= j < |d[1..]| ensures d[1..][j] == 0 { assert d[1..][j] == d[j + 1]; } }
        if d[0] == 0 && IsZero(d[1..]) { forall j | 0 <= j < |d| ensures d[j] == 0 { if j > 0 { assert d[j] == d[1..][j - 1]; } } }
      }
    }
  }

  /** hash_is_zero: 1 exactly when the first hlen bytes are zero. */
  method ZeroTest(h: seq<Byte>, hlen: nat) returns (zero: bool)
    requires |h| == 64 && hlen <= 64
    ensures zero <==> IsZero(h[..hlen])
  {
    var left := hlen % 8;
    var whole := hlen - left;
    var i := 0;
    while i < whole
      invariant 0 <= i <= whole && i % 8 == 0 && whole % 8 == 0 && forall j :: 0 <= j < i ==> h[j] == 0
    {
      WordIs(h, i, 8);
      ValueZero(h[i..i + 8]);
      if Word(h, i, 8) != 0 {
        SomeByte(h, i, 8, hlen);
        return false;
      }
      AllBytes(h, i, 8);
      i := i + 8;
    }
    if left > 0 {
      WordIs(h, i, left);
      ValueZero(h[i..i + left]);
      if Word(h, i, left) != 0 {
        SomeByte(h, i, left, hlen);
        return false;
      }
      AllBytes(h, i, left);
    }
    return true;
  }

  lemma SomeByte(h: seq<Byte>, i: nat, n: nat, hlen: nat)
    requires i + n <= hlen <= |h| && !IsZero(h[i..i + n])
    ensures !IsZero(h[..hlen])
  {
    var j :| 0 <= j < n && h[i..i + n][j] != 0;
    assert h[..hlen][i + j] == h[i..i + n][j];
  }

  lemma AllBytes(h: seq<Byte>, i: nat, n: nat)
    requires i + n <= |h| && IsZero(h[i..i + n])
    ensures forall j :: i <= j < i + n ==> h[j] == 0
  {
    forall j | i <= j < i + n ensures h[j] == 0 { assert h[j] == h[i..i + n][j - i]; }
  }

  /** The n bytes of a word in memory. */
  function ToBytes(v: nat, n: nat): (d: seq<Byte>)
    ensures |d| == n
  {
    if n == 0 then [] else [v % 256] + ToBytes(v / 256, n - 1)
  }

  /** The word that digits make up has them as its low bytes, and zeros above. */
  lemma {:induction false} BytesOfValue(d: seq<Byte>, n: nat)
    requires |d| <= n
    ensures ToBytes(Value(d), n) == d + Zero(n - |d|)
    decreases n
  {
    if d != [] {
      DivUnique(Value(d), 256, Value(d[1..]), d[0]);
      BytesOfValue(d[1..], n - 1);
      assert [d[0]] + (d[1..] + Zero(n - |d|)) == d + Zero(n - |d|);
    } else if n > 0 {
      BytesOfValue([], n - 1);
      assert [0] + Zero(n - 1) == Zero(n);
    }
  }

  /** What a store of the masked word at byte i leaves in memory. */
  lemma StoredWord(src: seq<Byte>, i: nat, n: nat)
    requires i + 8 <= |src| && n <= 8
    ensures ToBytes(Word(src, i, n), 8) == src[i..i + n] + Zero(8 - n)
  {
    WordIs(src, i, n);
    BytesOfValue(src[i..i + n], 8);
  }

  /** A 64-bit store. */
  method StoreWord(dst: array<Byte>, i: nat, v: nat)
    requires i + 8 <= dst.Length
    modifies dst
    ensures dst[i..i + 8] == ToBytes(v, 8)
    ensures forall k :: 0 <= k < dst.Length && !(i <= k < i + 8) ==> dst[k] == old(dst[k])
  {
    var d := ToBytes(v, 8);
    forall k | i <= k < i + 8 { dst[k] := d[k - i]; }
  }

  /** hash_copy: the first hlen bytes are copied; the rest of the last word is cleared, nothing behind it
      changes. */
  method Copy(dst: array<Byte>, src: seq<Byte>, hlen: nat)
    requires dst.Length == |src| == 64 && hlen <= 64
    modifies dst
    ensures dst[..hlen] == src[..hlen]
    ensures forall k :: hlen <= k < 64 ==> dst[k] == if k / 8 == hlen / 8 && hlen % 8 > 0 then 0 else old(dst[k])
  {
    hide Word, ToBytes;
    var left := hlen % 8;
    var whole := hlen - left;
    var i := 0;
    while i < whole
      invariant 0 <= i <= whole && i % 8 == 0 && whole % 8 == 0
      invariant forall k :: 0 <= k < i ==> dst[k] == src[k]
      invariant forall k :: i <= k < 64 ==> dst[k] == old(dst[k])
    {
      StoredWord(src, i, 8);
      StoreWord(dst, i, Word(src, i, 8));
      assert forall k :: i <= k < i + 8 ==> dst[k] == dst[i..i + 8][k - i];
      i := i + 8;
    }
    if left > 0 {
      StoredWord(src, i, left);
      StoreWord(dst, i, Word(src, i, left));
      assert forall k :: i <= k < i + 8 ==> dst[k] == dst[i..i + 8][k - i];
    }
  }

  /** _htable_bkt_no as written: a masked word of 16, 32 or 64 bits, kept in a 32-bit variable. */
  function RawBucket(h: seq<Byte>, hlen: nat, n: nat): nat
    requires |h| == 64 && n > 0
  {
    match hlen
    case 0 => 0
    case 1 => h[0] % n
    case 2 => Value(h[..2]) % n
    case 3 => (Value(h[..4]) % Pow(3)) % n
    case 4 => Value(h[..4]) % n
    case _ => (Value(h[..8]) % Pow(4)) % n
  }

  /** The bucket depends on the digest only. */
  lemma RawBucketIs(h: seq<Byte>, hlen: nat, n: nat)
    requires |h| == 64 && hlen <= 64 && n > 0
    ensures RawBucket(h, hlen, n) == Bucket(h[..hlen], n)
  {
    hide Pow;
    MaskIsPrefix(h[..4], 3);
    MaskIsPrefix(h[..8], 4);
    assert h[..4][..3] == h[..3] && h[..8][..4] == h[..4];
    if hlen >= 4 { assert h[..hlen][..4] == h[..4]; }
    if hlen == 0 { assert h[..0] == []; }
    if hlen == 1 { assert h[..1] == [h[0]] && Value([h[0]][1..]) == 0; }
  }

  /* ---- Text form ---- */

  function Digit(n: nat): Byte
    requires n < 16
  {
    if n < 10 then 48 + n else 87 + n
  }

  /** hash_unparse: two lower-case digits per byte. */
  function Unparse(d: seq<Byte>): (s: seq<Byte>)
    ensures |s| == 2 * |d|
  {
    if d == [] then [] else [Digit(d[0] / 16), Digit(d[0] % 16)] + Unparse(d[1..])
  }

  function Nibble(c: Byte): (r: Option<nat>)
    ensures r.Some? ==> r.value < 16
  {
    if 48 <= c <= 57 then Some(c - 48)
    else if 97 <= c <= 102 then Some(c - 87)
    else if 65 <= c <= 70 then Some(c - 55)
    else None
  }

  /** Text read as a digest; None when a character is no hexadecimal digit. */
  function Bytes(s: seq<Byte>): Option<seq<Byte>> {
    if s == [] then Some([])
    else if |s| == 1 || Nibble(s[0]).None? || Nibble(s[1]).None? then None
    else Prepend([Nibble(s[0]).value * 16 + Nibble(s[1]).value], Bytes(s[2..]))
  }

  /** hash_parse of the string in: succeeds exactly on 2 * hlen hexadecimal digits. */
  method Parse(text: seq<Byte>, hlen: nat) returns (r: Option<seq<Byte>>)
    requires hlen <= 64
    ensures r == if |text| == 2 * hlen then Bytes(text) else None
  {
    var h: seq<Byte> := [];
    var i := 0;
    assert text[0..] == text;
    PrependNone(Bytes(text));
    while i < hlen
      invariant 0 <= i <= hlen && |h| == i && 2 * i <= |text|
      invariant |text| == 2 * hlen ==> Bytes(text) == Prepend(h, Bytes(text[2 * i..]))
    {
      if |text| <= 2 * i + 1 { return None; }
      var (nu, nl) := (Nibble(text[2 * i]), Nibble(text[2 * i + 1]));
      assert text[2 * i..][0] == text[2 * i] && text[2 * i..][1] == text[2 * i + 1] && text[2 * i..][2..] == text[2 * i + 2..];
      if nu.None? || nl.None? { return None; }
      PrependMore(h, nu.value * 16 + nl.value, Bytes(text[2 * i + 2..]));
      h := h + [nu.value * 16 + nl.value];
      i := i + 1;
    }
    if |text| != 2 * hlen { return None; }
    assert text[2 * i..] == [] && h + [] == h;
    return Some(h);
  }

  function Prepend(h: seq<Byte>, r: Option<seq<Byte>>): Option<seq<Byte>> {
    if r.None? then None else Some(h + r.value)
  }

  lemma PrependNone(r: Option<seq<Byte>>)
    ensures Prepend([], r) == r
  {
    if r.Some? { assert [] + r.value == r.value; }
  }

  lemma PrependMore(h: seq<Byte>, b: Byte, r: Option<seq<Byte>>)
    ensures Prepend(h, Prepend([b], r)) == Prepend(h + [b], r)
  {
    if r.Some? { assert h + ([b] + r.value) == h + [b] + r.value; }
  }

  /** hash_parse undoes hash_unparse. */
  lemma {:induction false} BytesOfUnparse(d: seq<Byte>)
    ensures Bytes(Unparse(d)) == Some(d)
    decreases |d|
  {
    if d != [] {
      var s := Unparse(d);
      assert s[2..] == Unparse(d[1..]);
      BytesOfUnparse(d[1..]);
      assert Nibble(s[0]) == Some(d[0] / 16) && Nibble(s[1]) == Some(d[0] % 16);
      assert d == [d[0]] + d[1..];
    }
  }

  /** The text with A to F as small letters. */
  function Small(s: seq<Byte>): (r: seq<Byte>)
    ensures |r| == |s| && forall i :: 0 <= i < |r| ==> r[i] == if 65 <= s[i] <= 70 then s[i] + 32 else s[i]
  {
    seq(|s|, i requires 0 <= i < |s| => if 65 <= s[i] <= 70 then s[i] + 32 else s[i])
  }

  lemma NibbleExactly(c: Byte, n: nat)
    requires n < 16
    ensures Nibble(c) == Some(n) <==> (if 65 <= c <= 70 then c + 32 else c) == Digit(n)
  {
  }

  lemma BytesStep(s: seq<Byte>, d: seq<Byte>)
    requires |s| >= 2 && d != []
    ensures Bytes(s) == Some(d) <==> Nibble(s[0]) == Some(d[0] / 16) && Nibble(s[1]) == Some(d[0] % 16) && Bytes(s[2..]) == Some(d[1..])
  {
    hide Nibble;
    if Nibble(s[0]).Some? && Nibble(s[1]).Some? && Bytes(s[2..]).Some? {
      var (h, r) := (Nibble(s[0]).value * 16 + Nibble(s[1]).value, Bytes(s[2..]).value);
      assert [h] + r == d <==> d[0] == h && d[1..] == r by { assert d == [d[0]] + d[1..]; }
    }
  }

  lemma TextStep(s: seq<Byte>, d: seq<Byte>)
    requires |s| >= 2 && d != []
    ensures Small(s) == Unparse(d) <==>
      Small(s)[0] == Digit(d[0] / 16) && Small(s)[1] == Digit(d[0] % 16) && Small(s[2..]) == Unparse(d[1..])
  {
    hide Digit;
    var (t, u) := (Small(s), Unparse(d));
    assert t[2..] == Small(s[2..]) && t == [t[0], t[1]] + t[2..];
    assert u[0] == Digit(d[0] / 16) && u[1] == Digit(d[0] % 16) && u[2..] == Unparse(d[1..]);
    assert u == [u[0], u[1]] + u[2..];
  }

  /** A text is parsed as a digest exactly when, up to the case of its letters, it is the printed digest. */
  lemma {:induction false} ParsesExactly(s: seq<Byte>, d: seq<Byte>)
    ensures Bytes(s) == Some(d) <==> Small(s) == Unparse(d)
    decreases |s|
  {
    if |s| >= 2 && d != [] {
      hide Nibble, Digit, Bytes, Unparse;
      BytesStep(s, d);
      TextStep(s, d);
      NibbleExactly(s[0], d[0] / 16);
      NibbleExactly(s[1], d[0] % 16);
      ParsesExactly(s[2..], d[1..]);
    }
  }
}
