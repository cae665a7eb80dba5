/** The stream cipher: words in place, against bytes by position. */
module DummyCryptoImpl {
  import opened Wire
  import opened UnsignedBits

  function XorByte(a: Byte, b: Byte): Byte {
    XorBound(a, b, 8);
    assert Pow2(8) == 256;
    Xor(a, b)
  }

  /** Byte `i` combined with byte `i` mod 4 of the pad. */
  function CryptWith(f: (Byte, Byte) -> Byte, pad: Bytes, s: Bytes): (r: Bytes)
    requires |pad| == 4
    ensures |r| == |s|
  {
    seq(|s|, i requires 0 <= i < |s| => f(s[i], pad[i % 4]))
  }

  /** The cipher by positions: byte `i` is XORed with byte `i` mod 4 of the key. */
  function Crypt(key: nat, s: Bytes): (r: Bytes)
    ensures |r| == |s|
  {
    CryptWith(XorByte, Store(key, 4), s)
  }

  lemma CryptAt(key: nat, s: Bytes, i: nat)
    requires i < |s|
    ensures Crypt(key, s)[i] == XorByte(s[i], Store(key, 4)[i % 4])
  {
  }

  /** The cipher is its own inverse. */
  lemma CryptTwice(key: nat, s: Bytes)
    ensures Crypt(key, Crypt(key, s)) == s
  {
    forall i | 0 <= i < |s|
      ensures Crypt(key, Crypt(key, s))[i] == s[i]
    {
      CryptAt(key, s, i);
      CryptAt(key, Crypt(key, s), i);
      XorTwice(s[i], Store(key, 4)[i % 4]);
    }
  }

  lemma CryptPrefix(key: nat, s: Bytes, n: nat)
    requires n <= |s|
    ensures Crypt(key, s[..n]) == Crypt(key, s)[..n]
  {
  }

  /** Whole words can be taken off the front. */
  lemma CryptConcat(f: (Byte, Byte) -> Byte, pad: Bytes, a: Bytes, b: Bytes)
    requires |pad| == 4 && |a| % 4 == 0
    ensures CryptWith(f, pad, a + b) == CryptWith(f, pad, a) + CryptWith(f, pad, b)
  {
    var whole, parts := CryptWith(f, pad, a + b), CryptWith(f, pad, a) + CryptWith(f, pad, b);
    forall i | 0 <= i < |whole|
      ensures whole[i] == parts[i]
    {
      assert i >= |a| ==> i % 4 == (i - |a|) % 4;
    }
  }

  // ----- Words and bytes

  /** The first bytes of a word do not depend on how many are stored. */
  lemma {:induction false} StorePrefix(w: nat, k: nat, n: nat)
    requires k <= n
    ensures Store(w, k) == Store(w, n)[..k]
  {
    if k > 0 {
      StorePrefix(w / 256, k - 1, n - 1);
    }
  }

  /** XOR of a word with up to `|s|` bytes loaded into a zeroed word is XOR of the bytes. */
  lemma {:induction false} XorWordIsXorBytes(s: Bytes, w: nat, i: nat)
    requires i < |s|
    ensures Store(Xor(Fetch(s), w), |s|)[i] == XorByte(s[i], Store(w, |s|)[i])
  {
    var low, high := XorByte(s[0], w % 256), Xor(Fetch(s[1..]), w / 256);
    LowByte(s[0], Fetch(s[1..]), w, low, high);
    assert Store(Xor(Fetch(s), w), |s|) == [low] + Store(high, |s| - 1);
    assert Store(w, |s|) == [w % 256] + Store(w / 256, |s| - 1);
    if i > 0 {
      XorWordIsXorBytes(s[1..], w / 256, i - 1);
    }
  }

  lemma LowByte(b: Byte, rest: nat, w: nat, low: Byte, high: nat)
    requires low == XorByte(b, w % 256) && high == Xor(rest, w / 256)
    ensures var x := Xor(b + 256 * rest, w); x % 256 == low && x / 256 == high
  {
    XorSplit256(b, rest, w % 256, w / 256);
    Digit(w, w % 256, w / 256);
    Digit(Xor(b + 256 * rest, w), low, high);
  }

  lemma Digit(x: nat, low: Byte, high: nat)
    ensures x == low + 256 * high <==> x % 256 == low && x / 256 == high
  {
  }

  lemma CryptWordAt(key: nat, s: Bytes, i: nat)
    requires i < |s| <= 4
    ensures Store(Xor(Fetch(s), key), |s|)[i] == Crypt(key, s)[i]
  {
    XorWordIsXorBytes(s, key, i);
    StorePrefix(key, |s|, 4);
    assert Store(key, |s|)[i] == Store(key, 4)[..|s|][i] == Store(key, 4)[i % 4];
    CryptAt(key, s, i);
  }

  lemma CryptWord(key: nat, s: Bytes)
    requires |s| <= 4
    ensures Store(Xor(Fetch(s), key), |s|) == Crypt(key, s)
  {
    var r := Store(Xor(Fetch(s), key), |s|);
    forall i | 0 <= i < |s|
      ensures r[i] == Crypt(key, s)[i]
    {
      CryptWordAt(key, s, i);
    }
  }

  /** `now` is `was` with its first `i` bytes encrypted. */
  predicate Done(key: nat, was: Bytes, now: Bytes, i: nat) {
    i <= |was| && now == Crypt(key, was[..i]) + was[i..]
  }

  lemma NothingDone(key: nat, was: Bytes)
    ensures Done(key, was, was, 0)
  {
  }

  lemma Middle(s: Bytes, a: Bytes, b: Bytes, n: nat)
    requires s == a + b && n <= |b|
    ensures s[..|a|] == a && s[|a|..|a| + n] == b[..n] && s[|a| + n..] == b[n..]
  {
  }

  /** The next word, or the tail, in place. */
  lemma CryptMore(key: nat, was: Bytes, now: Bytes, i: nat, n: nat)
    requires i % 4 == 0 && n <= 4 && i + n <= |was|
    requires Done(key, was, now, i)
    ensures |now| == |was|
    ensures Done(key, was, now[..i] + Store(Xor(Fetch(now[i..i + n]), key), n) + now[i + n..], i + n)
  {
    Middle(now, Crypt(key, was[..i]), was[i..], n);
    assert was[i..][..n] == was[i..i + n] && was[i..][n..] == was[i + n..];
    CryptWord(key, was[i..i + n]);
    CryptConcat(XorByte, Store(key, 4), was[..i], was[i..i + n]);
    assert was[..i] + was[i..i + n] == was[..i + n];
  }

  // ----- The folded key

  /** All bytes at positions congruent to `j` mod 4, combined. */
  function FoldWith(f: (Byte, Byte) -> Byte, s: Bytes, j: nat): Byte {
    if s == [] then 0
    else if (|s| - 1) % 4 == j then f(FoldWith(f, s[..|s| - 1], j), s[|s| - 1])
    else FoldWith(f, s[..|s| - 1], j)
  }

  /** The XOR of all bytes at positions congruent to `j` mod 4. */
  function Fold(s: Bytes, j: nat): Byte {
    FoldWith(XorByte, s, j)
  }

  /** A key whose byte `j` is the fold at `j`. */
  predicate Folds(key: nat, s: Bytes) {
    forall j :: 0 <= j < 4 ==> Store(key, 4)[j] == Fold(s, j)
  }

  lemma FoldLast(f: (Byte, Byte) -> Byte, s: Bytes, last: Byte, j: nat)
    ensures FoldWith(f, s + [last], j) == if |s| % 4 == j then f(FoldWith(f, s, j), last) else FoldWith(f, s, j)
  {
    assert (s + [last])[..|s|] == s;
  }

  /** A word of the secret contributes its byte `j` to the fold at `j`. */
  lemma {:induction false} FoldAppend(f: (Byte, Byte) -> Byte, s: Bytes, tail: Bytes, j: nat)
    requires |s| % 4 == 0 && |tail| <= 4 && j < 4
    ensures FoldWith(f, s + tail, j) == if j < |tail| then f(FoldWith(f, s, j), tail[j]) else FoldWith(f, s, j)
  {
    if tail == [] {
      assert s + tail == s;
    } else {
      var n := |tail| - 1;
      FoldAppend(f, s, tail[..n], j);
      assert (|s| + n) % 4 == n;
      assert s + tail == (s + tail[..n]) + [tail[n]];
      FoldLast(f, s + tail[..n], tail[n], j);
    }
  }

  /** A secret of up to one word folds to its own bytes; longer ones fold word by word (FoldAppend). */
  lemma FoldShort(s: Bytes, j: nat)
    requires |s| <= 4 && j < 4
    ensures Fold(s, j) == if j < |s| then s[j] else 0
  {
    FoldAppend(XorByte, [], s, j);
    assert [] + s == s;
    if j < |s| {
      XorZero(s[j]);
    }
  }

  lemma FoldStep(key: nat, s: Bytes, tail: Bytes)
    requires Folds(key, s) && |s| % 4 == 0 && |tail| <= 4
    ensures Folds(Xor(key, Fetch(tail)), s + tail)
  {
    var word := tail + seq(4 - |tail|, _ => 0);
    FetchZeros(tail, 4 - |tail|);
    XorComm(key, Fetch(word));
    forall j | 0 <= j < 4
      ensures Store(Xor(key, Fetch(tail)), 4)[j] == Fold(s + tail, j)
    {
      FoldAppend(XorByte, s, tail, j);
      XorWordIsXorBytes(word, key, j);
      XorComm(word[j], Store(key, 4)[j]);
      XorZero(Store(key, 4)[j]);
    }
  }

  lemma {:induction false} XorComm(a: nat, b: nat)
    ensures Xor(a, b) == Xor(b, a)
  {
    if a != 0 || b != 0 {
      XorComm(a / 2, b / 2);
    }
  }

  /** Copying fewer bytes into a zeroed word. */
  lemma {:induction false} FetchZeros(s: Bytes, n: nat)
    ensures Fetch(s + seq(n, _ => 0)) == Fetch(s)
  {
    var z := seq(n, _ => 0);
    if s != [] {
      assert (s + z)[1..] == s[1..] + z;
      FetchZeros(s[1..], n);
    } else if n > 0 {
      assert s + z == z && z[1..] == [] + seq(n - 1, _ => 0);
      FetchZeros([], n - 1);
    }
  }

  // ----- In place

  predicate WordBoundary(length: nat, i: nat) {
    i % 4 == 0 && i <= length / 4 * 4
  }

  lemma NextWord(length: nat, i: nat)
    requires WordBoundary(length, i)
    ensures i % 4 == 0 && i <= length
    ensures i < length / 4 * 4 ==> i + 4 <= length && WordBoundary(length, i + 4)
    ensures i >= length / 4 * 4 ==> length < i + 4
  {
  }

  class DummyCrypto {
    var key: nat

    constructor (str: Bytes)
      ensures Folds(key, str)
    {
      var k := 0;
      var length := |str|;
      var i := 0;
      while i < length / 4 * 4
        invariant 0 <= i <= length / 4 * 4 && i % 4 == 0
        invariant Folds(k, str[..i])
      {
        FoldStep(k, str[..i], str[i..i + 4]);
        assert str[..i] + str[i..i + 4] == str[..i + 4];
        k := Xor(k, Fetch(str[i..i + 4]));
        i := i + 4;
      }
      assert str[..i] + str[i..] == str;
      FoldStep(k, str[..i], str[i..]);
      XorZero(k);
      if i < length {
        k := Xor(k, Fetch(str[i..]));
      }
      key := k;
    }

    /** Encrypts the first `length` bytes of the buffer and touches nothing else. */
    method Encrypt(text: array<Byte>, length: nat)
      requires length <= text.Length
      modifies text
      ensures text[..] == Crypt(key, old(text[..])[..length]) + old(text[..])[length..]
    {
      ghost var was := text[..];
      var i := 0;
      NothingDone(key, was);
      while i < length / 4 * 4
        invariant WordBoundary(length, i)
        invariant Done(key, was, text[..], i)
      {
        NextWord(length, i);
        EncryptWord(text, i, 4, was);
        i := i + 4;
      }
      NextWord(length, i);
      if i < length {
        EncryptWord(text, i, length - i, was);
      }
      assert Done(key, was, text[..], length);
    }

    /** Loads up to four bytes as a word, XORs it with the key and stores it back. */
    method EncryptWord(text: array<Byte>, i: nat, n: nat, ghost was: Bytes)
      requires i % 4 == 0 && n <= 4 && i + n <= text.Length == |was|
      requires Done(key, was, text[..], i)
      modifies text
      ensures Done(key, was, text[..], i + n)
    {
      CryptMore(key, was, text[..], i, n);
      assert text[i..i + n] == text[..][i..i + n];
      var v := Fetch(text[i..i + n]);
      v := Xor(v, key);
      StoreBytes(text, i, v, n);
    }

    method Decrypt(cypher: array<Byte>, length: nat)
      requires length <= cypher.Length
      modifies cypher
      ensures cypher[..] == Crypt(key, old(cypher[..])[..length]) + old(cypher[..])[length..]
    {
      Encrypt(cypher, length);
    }
  }

  /** Writes the low `n` bytes of a word at an offset. */
  method StoreBytes(text: array<Byte>, at: nat, word: nat, n: nat)
    requires at + n <= text.Length
    modifies text
    ensures text[..] == old(text[..])[..at] + Store(word, n) + old(text[..])[at + n..]
  {
    var bytes := Store(word, n);
    for j := 0 to n
      invariant text[..] == old(text[..])[..at] + bytes[..j] + old(text[..])[at + j..]
    {
      text[at + j] := bytes[j];
    }
  }
}
