/**
 The Solidity Contract ABI Specification, section "Formal Specification of the Encoding", for
 argument lists of 32-byte words and arrays of words: an encoder and a decoder that follows offsets.
 A word is the number that its 32 bytes spell, most significant byte first.
 */
module Abi {
  import opened Hex

  // ----- numbers as bytes

  function Zeros(k: nat): (z: seq<Byte>)
    ensures |z| == k && forall i :: 0 <= i < k ==> z[i] == 0
  {
    seq(k, _ => 0)
  }

  /** The number of values that as many bytes as `b` has can take. */
  function Radix(b: seq<Byte>): (p: nat)
    ensures p > 0
  {
    if b == [] then 1 else 256 * Radix(b[1..])
  }

  /** The number of values of a word, 2^256. */
  function Limit(): (p: nat)
    ensures p > 0
  {
    Radix(Zeros(32))
  }

  /** The bytes of a number, without leading zeros. */
  function Bytes(n: nat): seq<Byte> {
    if n == 0 then [] else Bytes(n / 256) + [n % 256]
  }

  function Value(b: seq<Byte>): nat {
    if b == [] then 0 else Value(b[..|b| - 1]) * 256 + b[|b| - 1]
  }

  /** The last 32 bytes, with zeros in front if there are fewer. */
  function Pad(b: seq<Byte>): (w: seq<Byte>)
    ensures |w| == 32
  {
    if |b| > 32 then b[|b| - 32..] else Zeros(32 - |b|) + b
  }

  lemma {:induction false} BytesFit(n: nat, b: seq<Byte>)
    requires n < Radix(b)
    ensures |Bytes(n)| <= |b|
    decreases |b|
  {
    if n > 0 {
      BytesFit(n / 256, b[1..]);
    }
  }

  lemma {:induction false} ValueOfBytes(zeros: seq<Byte>, n: nat)
    requires forall i :: 0 <= i < |zeros| ==> zeros[i] == 0
    ensures Value(zeros + Bytes(n)) == n
    decreases n, |zeros|
  {
    if n > 0 {
      ValueOfBytes(zeros, n / 256);
      assert (zeros + Bytes(n))[..|zeros| + |Bytes(n)| - 1] == zeros + Bytes(n / 256);
    } else if zeros != [] {
      ValueOfBytes(zeros[..|zeros| - 1], 0);
      assert (zeros + [])[..|zeros| - 1] == zeros[..|zeros| - 1] + [];
    }
  }

  lemma ValueOfPadded(n: nat)
    requires n < Limit()
    ensures Value(Pad(Bytes(n))) == n
  {
    BytesFit(n, Zeros(32));
    ValueOfBytes(Zeros(32 - |Bytes(n)|), n);
  }

  /** Bytes of the same length that spell the same number are the same. */
  lemma {:induction false} ValueInjective(a: seq<Byte>, b: seq<Byte>)
    requires |a| == |b| && Value(a) == Value(b)
    ensures a == b
  {
    if a != [] {
      ValueInjective(a[..|a| - 1], b[..|b| - 1]);
      assert a == a[..|a| - 1] + [a[|a| - 1]] && b == b[..|b| - 1] + [b[|b| - 1]];
    }
  }

  lemma {:induction false} ValueBelow(b: seq<Byte>, c: seq<Byte>)
    requires |b| <= |c|
    ensures Value(b) < Radix(c)
    decreases |b|
  {
    if b != [] {
      ValueBelow(b[..|b| - 1], c[1..]);
    }
  }

  /** Every unsigned 64-bit number is far below the limit. */
  lemma LimitIsLarge()
    ensures Limit() > 0x1_0000_0000_0000_0000
  {
    var z := Zeros(32);
    assert Radix(z) == 0x1_0000 * Radix(z[1..][1..]);
    RadixOfFour(z[1..][1..]);
    RadixOfFour(z[1..][1..][1..][1..][1..][1..]);
  }

  lemma RadixOfFour(b: seq<Byte>)
    requires |b| >= 4
    ensures Radix(b) == 0x1_0000_0000 * Radix(b[1..][1..][1..][1..])
  {
    assert Radix(b) == 0x1_0000 * Radix(b[1..][1..]);
    assert Radix(b[1..][1..]) == 0x1_0000 * Radix(b[1..][1..][1..][1..]);
  }

  // ----- argument lists

  datatype Val = Static(word: nat) | Dynamic(elems: seq<nat>)

  function TailOf(v: Val): (tail: seq<nat>)
    ensures |tail| == Size(v)
  {
    if v.Static? then [] else [|v.elems|] + v.elems
  }

  /** The words of the tail. */
  function Size(v: Val): nat {
    if v.Static? then 0 else 1 + |v.elems|
  }

  /** The head: the word, or the byte at which the tail begins. */
  function HeadOf(v: Val, start: nat): nat {
    if v.Static? then v.word else 32 * start
  }

  /** The heads; `start` is the word at which the first argument's tail begins. */
  function Heads(vals: seq<Val>, start: nat): (ws: seq<nat>)
    ensures |ws| == |vals|
    decreases |vals|
  {
    if vals == [] then [] else [HeadOf(vals[0], start)] + Heads(vals[1..], start + Size(vals[0]))
  }

  function Tails(vals: seq<Val>): seq<nat> {
    if vals == [] then [] else TailOf(vals[0]) + Tails(vals[1..])
  }

  function EncodeWords(vals: seq<Val>): seq<nat> {
    Heads(vals, |vals|) + Tails(vals)
  }

  function Flat(ws: seq<nat>): (b: seq<Byte>)
    ensures |b| == 32 * |ws|
  {
    if ws == [] then [] else Pad(Bytes(ws[0])) + Flat(ws[1..])
  }

  function Encode(vals: seq<Val>): seq<Byte> {
    Flat(EncodeWords(vals))
  }

  /** The words of a byte string; a last piece that is shorter than a word is dropped. */
  function Words(b: seq<Byte>): seq<nat> {
    if |b| < 32 then [] else [Value(b[..32])] + Words(b[32..])
  }

  function WordAt(ws: seq<nat>, p: nat): nat {
    if p < |ws| then ws[p] else 0
  }

  function WordsFrom(ws: seq<nat>, p: nat, n: nat): (r: seq<nat>)
    ensures |r| == n && forall j :: 0 <= j < n ==> r[j] == WordAt(ws, p + j)
  {
    if n == 0 then [] else WordsFrom(ws, p, n - 1) + [WordAt(ws, p + n - 1)]
  }

  /** Argument `i`: its head, or the array that the offset in its head leads to. */
  function DecodeArg(ws: seq<nat>, i: nat, dynamic: bool): Val {
    if !dynamic then Static(WordAt(ws, i))
    else
      var p := WordAt(ws, i) / 32;
      Dynamic(WordsFrom(ws, p + 1, WordAt(ws, p)))
  }

  function Decode(b: seq<Byte>, shape: seq<bool>): (vals: seq<Val>)
    ensures |vals| == |shape| && forall i :: 0 <= i < |vals| ==> vals[i] == DecodeArg(Words(b), i, shape[i])
  {
    seq(|shape|, i requires 0 <= i < |shape| => DecodeArg(Words(b), i, shape[i]))
  }

  function Shape(vals: seq<Val>): (shape: seq<bool>)
    ensures |shape| == |vals| && forall i :: 0 <= i < |vals| ==> shape[i] == vals[i].Dynamic?
  {
    seq(|vals|, i requires 0 <= i < |vals| => vals[i].Dynamic?)
  }

  lemma {:induction false} WordsOfFlat(ws: seq<nat>)
    requires forall i :: 0 <= i < |ws| ==> ws[i] < Limit()
    ensures Words(Flat(ws)) == ws
  {
    if ws != [] {
      ValueOfPadded(ws[0]);
      WordsOfFlat(ws[1..]);
      assert Flat(ws)[..32] == Pad(Bytes(ws[0])) && Flat(ws)[32..] == Flat(ws[1..]);
    }
  }

  /** The words of the tails before that of argument `i`. */
  function TailStart(vals: seq<Val>, i: nat): nat
    requires i <= |vals|
  {
    if i == 0 then 0 else Size(vals[0]) + TailStart(vals[1..], i - 1)
  }

  lemma {:induction false} HeadAt(vals: seq<Val>, start: nat, i: nat)
    requires i < |vals|
    ensures Heads(vals, start)[i] == HeadOf(vals[i], start + TailStart(vals, i))
    decreases i
  {
    if i > 0 {
      HeadAt(vals[1..], start + Size(vals[0]), i - 1);
    }
  }

  lemma SliceRight(a: seq<nat>, b: seq<nat>, p: nat, n: nat)
    requires p + n <= |b|
    ensures (a + b)[|a| + p..|a| + p + n] == b[p..p + n]
  {
  }

  /** A stretch of the rest is a stretch of the whole. */
  lemma {:induction false} TailBehind(first: seq<nat>, rest: seq<nat>, p: nat, n: nat, tail: seq<nat>)
    requires p + n <= |rest| && rest[p..p + n] == tail
    ensures (first + rest)[|first| + p..|first| + p + n] == tail
  {
    SliceRight(first, rest, p, n);
  }

  lemma {:induction false} TailAt(vals: seq<Val>, i: nat)
    requires i < |vals|
    ensures TailStart(vals, i) + Size(vals[i]) <= |Tails(vals)|
    ensures Tails(vals)[TailStart(vals, i)..TailStart(vals, i) + Size(vals[i])] == TailOf(vals[i])
    decreases i
  {
    if i > 0 {
      TailAt(vals[1..], i - 1);
      var first, rest := TailOf(vals[0]), Tails(vals[1..]);
      var p, n, tail := TailStart(vals[1..], i - 1), Size(vals[i]), TailOf(vals[i]);
      assert vals[1..][i - 1] == vals[i];
      assert Tails(vals) == first + rest && TailStart(vals, i) == |first| + p;
      TailBehind(first, rest, p, n, tail);
    }
  }

  lemma {:induction false} DecodeDynamic(ws: seq<nat>, i: nat, p: nat, elems: seq<nat>)
    requires i < |ws| && p + 1 + |elems| <= |ws| && ws[i] == 32 * p
    requires ws[p..p + 1 + |elems|] == [|elems|] + elems
    ensures DecodeArg(ws, i, true) == Dynamic(elems)
  {
    var tail := ws[p..p + 1 + |elems|];
    assert ws[p] == tail[0];
    forall j | 0 <= j < |elems| ensures ws[p + 1 + j] == elems[j] {
      assert tail[1 + j] == elems[j];
    }
    assert WordsFrom(ws, p + 1, |elems|) == elems;
  }

  /** The tail of an argument, found where its head points to. */
  lemma {:induction false} TailInWords(vals: seq<Val>, i: nat, p: nat)
    requires i < |vals| && p == |vals| + TailStart(vals, i)
    ensures p + Size(vals[i]) <= |EncodeWords(vals)|
    ensures EncodeWords(vals)[p..p + Size(vals[i])] == TailOf(vals[i])
  {
    TailAt(vals, i);
    var heads, tails := Heads(vals, |vals|), Tails(vals);
    TailBehind(heads, tails, TailStart(vals, i), Size(vals[i]), TailOf(vals[i]));
  }

  lemma {:induction false} DecodeArgEncoded(vals: seq<Val>, i: nat)
    requires i < |vals|
    ensures DecodeArg(EncodeWords(vals), i, vals[i].Dynamic?) == vals[i]
  {
    var ws, p := EncodeWords(vals), |vals| + TailStart(vals, i);
    HeadAt(vals, |vals|, i);
    assert ws[i] == HeadOf(vals[i], p);
    if vals[i].Dynamic? {
      TailInWords(vals, i, p);
      DecodeDynamic(ws, i, p, vals[i].elems);
    }
  }

  ghost predicate ValFits(v: Val, limit: nat) {
    match v
    case Static(word) => word < limit
    case Dynamic(elems) => forall j :: 0 <= j < |elems| ==> elems[j] < limit
  }

  /** Every word of the arguments is below the limit, and so is the size of the encoding in bytes. */
  ghost predicate Fits(vals: seq<Val>, limit: nat) {
    32 * |EncodeWords(vals)| < limit && forall i :: 0 <= i < |vals| ==> ValFits(vals[i], limit)
  }

  lemma {:induction false} TailsFit(vals: seq<Val>, limit: nat)
    requires |Tails(vals)| < limit && forall i :: 0 <= i < |vals| ==> ValFits(vals[i], limit)
    ensures forall k :: 0 <= k < |Tails(vals)| ==> Tails(vals)[k] < limit
  {
    if vals != [] {
      assert ValFits(vals[0], limit);
      TailsFit(vals[1..], limit);
    }
  }

  lemma {:induction false} TailStartBound(vals: seq<Val>, i: nat)
    requires i <= |vals|
    ensures TailStart(vals, i) <= |Tails(vals)|
    decreases i
  {
    if i > 0 {
      TailStartBound(vals[1..], i - 1);
    }
  }

  lemma HeadFits(v: Val, start: nat, total: nat, limit: nat)
    requires ValFits(v, limit) && start <= total && 32 * total < limit
    ensures HeadOf(v, start) < limit
  {
  }

  lemma {:induction false} WordsFit(vals: seq<Val>, limit: nat)
    requires Fits(vals, limit)
    ensures forall k :: 0 <= k < |EncodeWords(vals)| ==> EncodeWords(vals)[k] < limit
  {
    var n, total := |vals|, |EncodeWords(vals)|;
    TailsFit(vals, limit);
    forall i | 0 <= i < n ensures Heads(vals, n)[i] < limit {
      HeadAt(vals, n, i);
      TailStartBound(vals, i);
      HeadFits(vals[i], n + TailStart(vals, i), total, limit);
    }
  }

  /** Following the offsets gives back every argument, for arrays of any length that can be addressed. */
  lemma {:induction false} DecodeEncoded(vals: seq<Val>)
    requires Fits(vals, Limit())
    ensures Decode(Encode(vals), Shape(vals)) == vals
  {
    WordsFit(vals, Limit());
    WordsOfFlat(EncodeWords(vals));
    forall i | 0 <= i < |vals| ensures Decode(Encode(vals), Shape(vals))[i] == vals[i] {
      DecodeArgEncoded(vals, i);
    }
  }

  /** So the bytes determine the arguments. */
  lemma {:induction false} EncodeInjective(a: seq<Val>, b: seq<Val>)
    requires Encode(a) == Encode(b) && Shape(a) == Shape(b) && Fits(a, Limit()) && Fits(b, Limit())
    ensures a == b
  {
    DecodeEncoded(a);
    DecodeEncoded(b);
  }

  // ----- where the bytes stand

  lemma {:induction false} TailStartNext(vals: seq<Val>, i: nat)
    requires i < |vals|
    ensures TailStart(vals, i + 1) == TailStart(vals, i) + Size(vals[i])
    decreases i
  {
    if i > 0 {
      TailStartNext(vals[1..], i - 1);
    }
  }

  lemma {:induction false} TailsLength(vals: seq<Val>)
    ensures |Tails(vals)| == TailStart(vals, |vals|)
  {
    if vals != [] {
      TailsLength(vals[1..]);
    }
  }

  lemma {:induction false} FlatAt(ws: seq<nat>, i: nat)
    requires i < |ws|
    ensures Flat(ws)[32 * i..32 * i + 32] == Pad(Bytes(ws[i]))
  {
    var first, rest := Pad(Bytes(ws[0])), Flat(ws[1..]);
    if i > 0 {
      FlatAt(ws[1..], i - 1);
      assert (first + rest)[32 * i..32 * i + 32] == rest[32 * (i - 1)..32 * (i - 1) + 32];
    }
  }

  /** Word i of the encoding stands at byte 32 i and spells its number. */
  lemma {:induction false} EncodedWord(vals: seq<Val>, i: nat)
    requires Fits(vals, Limit()) && i < |EncodeWords(vals)|
    ensures |Encode(vals)| == 32 * |EncodeWords(vals)|
    ensures Value(Encode(vals)[32 * i..32 * i + 32]) == EncodeWords(vals)[i]
  {
    WordsFit(vals, Limit());
    FlatAt(EncodeWords(vals), i);
    ValueOfPadded(EncodeWords(vals)[i]);
  }

  lemma {:induction false} LeadingZeros(zeros: seq<Byte>, b: seq<Byte>)
    requires forall i :: 0 <= i < |zeros| ==> zeros[i] == 0
    ensures Value(zeros + b) == Value(b)
    decreases |zeros| + |b|
  {
    if b != [] {
      LeadingZeros(zeros, b[..|b| - 1]);
      assert (zeros + b)[..|zeros| + |b| - 1] == zeros + b[..|b| - 1];
    } else if zeros != [] {
      LeadingZeros(zeros[..|zeros| - 1], b);
      assert (zeros + b)[..|zeros| - 1] == zeros[..|zeros| - 1] + b;
    }
  }

  /** A word whose number is that of an address has twelve zeros in front of it. */
  lemma AddressInWord(w: seq<Byte>, a: Address)
    requires |w| == 32 && Value(w) == Value(a)
    ensures w == Zeros(12) + a
  {
    LeadingZeros(Zeros(12), a);
    ValueInjective(w, Zeros(12) + a);
  }

  /** 256 to the power k. */
  function Power(k: nat): (p: nat)
    ensures p > 0
  {
    if k == 0 then 1 else 256 * Power(k - 1)
  }

  lemma DivideTwice(x: nat, p: nat)
    requires p > 0
    ensures x / (256 * p) == x / 256 / p
  {
    var q, r := x / 256 / p, x / 256 % p;
    assert x == 256 * (p * q + r) + x % 256;
    QuotientIs(x, 256 * p, q, 256 * r + x % 256);
  }

  lemma QuotientIs(x: nat, d: nat, q: nat, r: nat)
    requires d > 0 && r < d && x == d * q + r
    ensures x / d == q
  {
    var k := x / d;
    assert x == d * k + x % d;
    if k < q {
      assert d * k + d <= d * q by { Multiplied(d, k + 1, q); }
    } else if k > q {
      assert d * q + d <= d * k by { Multiplied(d, q + 1, k); }
    }
  }

  lemma Multiplied(d: nat, a: nat, b: nat)
    requires a <= b
    ensures d * a <= d * b
  {
  }

  /** The number of a byte string, most significant byte first: its k-th byte from the end counts 256^k. */
  lemma {:induction false} BigEndian(b: seq<Byte>, k: nat)
    requires k < |b|
    ensures Value(b) / Power(k) % 256 == b[|b| - 1 - k]
    decreases k
  {
    var front := b[..|b| - 1];
    assert Value(b) / 256 == Value(front);
    if k > 0 {
      BigEndian(front, k - 1);
      DivideTwice(Value(b), Power(k - 1));
    }
  }
}
