/** The bytes that are hashed and signed, one by one, and the two functions that build them. */
module MessageBytes {
  import opened Hex
  import opened Abi
  import opened Members
  import opened Messages
  import opened Options

  // ----- what stands in a word

  /** Word i of `b`. */
  function WordBytes(b: seq<Byte>, i: nat): (w: seq<Byte>)
    requires 32 * i + 32 <= |b|
    ensures |w| == 32
  {
    b[32 * i..32 * i + 32]
  }

  ghost predicate NumberAt(b: seq<Byte>, i: nat, n: int) {
    32 * i + 32 <= |b| && Value(WordBytes(b, i)) == n
  }

  /** A 64-bit number that went through int64: from 2^63 on it is negative, in two's complement. */
  ghost predicate Int64At(b: seq<Byte>, i: nat, n: Uint64) {
    NumberAt(b, i, if n < TWO63 then n else Limit() - TWO64 + n)
  }

  ghost predicate AddressAt(b: seq<Byte>, i: nat, text: string) {
    32 * i + 32 <= |b| && WordBytes(b, i) == Zeros(12) + HexToAddress(text)
  }

  /** Text at the beginning of the word, zeros behind it. */
  ghost predicate TextAt(b: seq<Byte>, i: nat, text: string)
    requires |text| <= 32
  {
    && 32 * i + 32 <= |b|
    && (forall k :: 0 <= k < |text| ==> WordBytes(b, i)[k] == text[k] as int)
    && (forall k :: |text| <= k < 32 ==> WordBytes(b, i)[k] == 0)
  }

  // ----- arrays: the length in word p, then one word for each element

  ghost predicate AddressesAt(b: seq<Byte>, p: nat, ms: seq<Member>) {
    NumberAt(b, p, |ms|) && forall i :: 0 <= i < |ms| ==> AddressAt(b, p + 1 + i, ms[i].address)
  }

  ghost predicate PowersAt(b: seq<Byte>, p: nat, ms: seq<Member>) {
    NumberAt(b, p, |ms|) && forall i :: 0 <= i < |ms| ==> Int64At(b, p + 1 + i, ms[i].power)
  }

  ghost predicate AmountsAt(b: seq<Byte>, p: nat, ts: seq<Transfer>) {
    NumberAt(b, p, |ts|) && forall i :: 0 <= i < |ts| ==> NumberAt(b, p + 1 + i, ts[i].amount)
  }

  ghost predicate DestinationsAt(b: seq<Byte>, p: nat, ts: seq<Transfer>) {
    NumberAt(b, p, |ts|) && forall i :: 0 <= i < |ts| ==> AddressAt(b, p + 1 + i, ts[i].destination)
  }

  ghost predicate FeesAt(b: seq<Byte>, p: nat, ts: seq<Transfer>) {
    NumberAt(b, p, |ts|) && forall i :: 0 <= i < |ts| ==> NumberAt(b, p + 1 + i, ts[i].fee)
  }

  // ----- the two layouts

  /** The seven words in front of a signed valset; the two arrays follow from word 7 and word 8 + n on. */
  ghost predicate ValsetFront(id: Id, v: Valset, n: nat, b: seq<Byte>)
    requires v.rewardAmount.Some?
  {
    && |b| >= 224 && WordBytes(b, 0) == id && TextAt(b, 1, "checkpoint") && Int64At(b, 2, v.nonce)
    && NumberAt(b, 3, 224) && NumberAt(b, 4, 224 + 32 * (1 + n))
    && NumberAt(b, 5, v.rewardAmount.value) && AddressAt(b, 6, v.rewardToken)
  }

  /** Every byte of a signed valset. */
  ghost predicate ValsetLayout(id: Id, v: Valset, b: seq<Byte>)
    requires v.rewardAmount.Some?
  {
    var n := |v.members|;
    |b| == 32 * (9 + 2 * n) && ValsetFront(id, v, n, b) && AddressesAt(b, 7, v.members) && PowersAt(b, 8 + n, v.members)
  }

  /** The eight words in front of a signed batch; the three arrays follow from words 8, 9 + n and 10 + 2 n on. */
  ghost predicate BatchFront(id: Id, t: Batch, n: nat, b: seq<Byte>) {
    && |b| >= 256 && WordBytes(b, 0) == id && TextAt(b, 1, "transactionBatch")
    && NumberAt(b, 2, 256) && NumberAt(b, 3, 256 + 32 * (1 + n)) && NumberAt(b, 4, 256 + 64 * (1 + n))
    && Int64At(b, 5, t.nonce) && AddressAt(b, 6, t.token) && Int64At(b, 7, t.timeout)
  }

  /** Every byte of a signed batch. */
  ghost predicate BatchLayout(id: Id, t: Batch, b: seq<Byte>) {
    var n := |t.transfers|;
    && |b| == 32 * (11 + 3 * n) && BatchFront(id, t, n, b)
    && AmountsAt(b, 8, t.transfers) && DestinationsAt(b, 9 + n, t.transfers) && FeesAt(b, 10 + 2 * n, t.transfers)
  }

  // ----- the words of the two tuples

  lemma {:induction false} WordOfHead(vals: seq<Val>, i: nat)
    requires i < |vals|
    ensures i < |EncodeWords(vals)| && EncodeWords(vals)[i] == HeadOf(vals[i], |vals| + TailStart(vals, i))
  {
    HeadAt(vals, |vals|, i);
    var heads, tails := Heads(vals, |vals|), Tails(vals);
    assert (heads + tails)[i] == heads[i];
  }

  /** An array in the encoding: its length, then its elements, from the word on that its head names. */
  ghost predicate ArrayAt(ws: seq<nat>, p: nat, xs: seq<nat>) {
    p + 1 + |xs| <= |ws| && ws[p] == |xs| && forall i :: 0 <= i < |xs| ==> ws[p + 1 + i] == xs[i]
  }

  lemma WordsOfArray(vals: seq<Val>, i: nat, p: nat)
    requires i < |vals| && vals[i].Dynamic? && p == |vals| + TailStart(vals, i)
    ensures ArrayAt(EncodeWords(vals), p, vals[i].elems)
  {
    TailInWords(vals, i, p);
    SliceIsArray(EncodeWords(vals), p, vals[i].elems);
  }

  lemma SliceIsArray(ws: seq<nat>, p: nat, xs: seq<nat>)
    requires p + 1 + |xs| <= |ws| && ws[p..p + 1 + |xs|] == [|xs|] + xs
    ensures ArrayAt(ws, p, xs)
  {
    var slice := ws[p..p + 1 + |xs|];
    assert slice[0] == |xs|;
    forall i | 0 <= i < |xs| ensures ws[p + 1 + i] == xs[i] {
      assert slice[1 + i] == xs[i];
    }
  }

  lemma ValsetStarts(vals: seq<Val>, x: nat, y: nat)
    requires |vals| == 7 && forall i :: 0 <= i < 7 ==> Size(vals[i]) == if i == 3 then x else if i == 4 then y else 0
    ensures TailStart(vals, 3) == 0 && TailStart(vals, 4) == x && |Tails(vals)| == x + y
  {
    TailStartNext(vals, 0);
    TailStartNext(vals, 1);
    TailStartNext(vals, 2);
    TailStartNext(vals, 3);
    TailStartNext(vals, 4);
    TailStartNext(vals, 5);
    TailStartNext(vals, 6);
    TailsLength(vals);
  }

  ghost predicate SevenWords(ws: seq<nat>, a: nat, b: nat, c: nat, xs: seq<nat>, ys: seq<nat>, d: nat, e: nat) {
    && |ws| == 9 + |xs| + |ys| && ws[0] == a && ws[1] == b && ws[2] == c && ws[3] == 224 && ws[4] == 224 + 32 * (1 + |xs|)
    && ws[5] == d && ws[6] == e && ArrayAt(ws, 7, xs) && ArrayAt(ws, 8 + |xs|, ys)
  }

  lemma ValsetWords(vals: seq<Val>, a: nat, b: nat, c: nat, xs: seq<nat>, ys: seq<nat>, d: nat, e: nat)
    requires vals == [Static(a), Static(b), Static(c), Dynamic(xs), Dynamic(ys), Static(d), Static(e)]
    ensures SevenWords(EncodeWords(vals), a, b, c, xs, ys, d, e)
  {
    ValsetStarts(vals, 1 + |xs|, 1 + |ys|);
    WordOfHead(vals, 0);
    WordOfHead(vals, 1);
    WordOfHead(vals, 2);
    WordOfHead(vals, 3);
    WordOfHead(vals, 4);
    WordOfHead(vals, 5);
    WordOfHead(vals, 6);
    WordsOfArray(vals, 3, 7);
    WordsOfArray(vals, 4, 8 + |xs|);
  }

  lemma BatchStarts(vals: seq<Val>, x: nat, y: nat, z: nat)
    requires |vals| == 8
    requires forall i :: 0 <= i < 8 ==> Size(vals[i]) == if i == 2 then x else if i == 3 then y else if i == 4 then z else 0
    ensures TailStart(vals, 2) == 0 && TailStart(vals, 3) == x && TailStart(vals, 4) == x + y && |Tails(vals)| == x + y + z
  {
    TailStartNext(vals, 0);
    TailStartNext(vals, 1);
    TailStartNext(vals, 2);
    TailStartNext(vals, 3);
    TailStartNext(vals, 4);
    TailStartNext(vals, 5);
    TailStartNext(vals, 6);
    TailStartNext(vals, 7);
    TailsLength(vals);
  }

  ghost predicate EightWords(ws: seq<nat>, a: nat, b: nat, xs: seq<nat>, ys: seq<nat>, zs: seq<nat>, c: nat, d: nat, e: nat) {
    && |ws| == 11 + |xs| + |ys| + |zs| && ws[0] == a && ws[1] == b
    && ws[2] == 256 && ws[3] == 256 + 32 * (1 + |xs|) && ws[4] == 256 + 32 * (2 + |xs| + |ys|)
    && ws[5] == c && ws[6] == d && ws[7] == e
  }

  lemma BatchWords(vals: seq<Val>, a: nat, b: nat, xs: seq<nat>, ys: seq<nat>, zs: seq<nat>, c: nat, d: nat, e: nat)
    requires vals == [Static(a), Static(b), Dynamic(xs), Dynamic(ys), Dynamic(zs), Static(c), Static(d), Static(e)]
    ensures EightWords(EncodeWords(vals), a, b, xs, ys, zs, c, d, e)
  {
    BatchStarts(vals, 1 + |xs|, 1 + |ys|, 1 + |zs|);
    WordOfHead(vals, 0);
    WordOfHead(vals, 1);
    WordOfHead(vals, 2);
    WordOfHead(vals, 3);
    WordOfHead(vals, 4);
    WordOfHead(vals, 5);
    WordOfHead(vals, 6);
    WordOfHead(vals, 7);
  }

  // ----- from words to bytes

  /** The words of `b` are `ws`. */
  ghost predicate Spelled(b: seq<Byte>, ws: seq<nat>) {
    |b| == 32 * |ws| && forall i {:trigger NumberAt(b, i, ws[i])} :: 0 <= i < |ws| ==> NumberAt(b, i, ws[i])
  }

  lemma EncodingSpells(vals: seq<Val>)
    requires Fits(vals, Limit())
    ensures Spelled(Encode(vals), EncodeWords(vals))
  {
    var b, ws := Encode(vals), EncodeWords(vals);
    assert |b| == 32 * |ws|;
    forall i | 0 <= i < |ws| ensures NumberAt(b, i, ws[i]) {
      EncodedWord(vals, i);
    }
  }

  lemma IdInWord(b: seq<Byte>, i: nat, id: Id)
    requires NumberAt(b, i, Value(id))
    ensures WordBytes(b, i) == id
  {
    ValueInjective(WordBytes(b, i), id);
  }

  lemma TextInWord(b: seq<Byte>, i: nat, text: string)
    requires |text| <= 32 && (forall k :: 0 <= k < |text| ==> text[k] as int < 256) && NumberAt(b, i, TextWord(text))
    ensures TextAt(b, i, text)
  {
    ValueInjective(WordBytes(b, i), seq<Byte>(|text|, k requires 0 <= k < |text| => text[k] as int) + Zeros(32 - |text|));
  }

  lemma AddressTextInWord(b: seq<Byte>, i: nat, text: string)
    requires NumberAt(b, i, AddressWord(HexToAddress(text)))
    ensures AddressAt(b, i, text)
  {
    AddressInWord(WordBytes(b, i), HexToAddress(text));
  }

  lemma SignedInWord(b: seq<Byte>, i: nat, n: Uint64)
    requires NumberAt(b, i, SignedWord(n))
    ensures Int64At(b, i, n)
  {
  }

  lemma {:induction false} LengthSpelled(b: seq<Byte>, ws: seq<nat>, p: nat, xs: seq<nat>)
    requires Spelled(b, ws) && ArrayAt(ws, p, xs)
    ensures NumberAt(b, p, |xs|)
  {
    assert NumberAt(b, p, ws[p]);
  }

  /** The elements of an array, word by word. */
  lemma {:induction false} ElementSpelled<T>(b: seq<Byte>, ws: seq<nat>, p: nat, items: seq<T>, word: T -> nat, i: nat)
    requires Spelled(b, ws) && ArrayAt(ws, p, Column(items, word)) && i < |items|
    ensures NumberAt(b, p + 1 + i, word(items[i]))
  {
    var xs, k := Column(items, word), p + 1 + i;
    ArrayElement(ws, p, xs, i);
    assert xs[i] == word(items[i]);
    assert NumberAt(b, k, ws[k]);
  }

  lemma {:induction false} ArrayElement(ws: seq<nat>, p: nat, xs: seq<nat>, i: nat)
    requires ArrayAt(ws, p, xs) && i < |xs|
    ensures p + 1 + i < |ws| && ws[p + 1 + i] == xs[i]
  {
  }

  lemma {:induction false} MemberAddresses(b: seq<Byte>, ws: seq<nat>, p: nat, items: seq<Member>)
    requires Spelled(b, ws) && ArrayAt(ws, p, Column(items, MemberWord))
    ensures AddressesAt(b, p, items)
  {
    LengthSpelled(b, ws, p, Column(items, MemberWord));
    forall i | 0 <= i < |items| ensures AddressAt(b, p + 1 + i, items[i].address) {
      ElementSpelled(b, ws, p, items, MemberWord, i);
      AddressTextInWord(b, p + 1 + i, items[i].address);
    }
  }

  lemma {:induction false} MemberPowers(b: seq<Byte>, ws: seq<nat>, p: nat, items: seq<Member>)
    requires Spelled(b, ws) && ArrayAt(ws, p, Column(items, SignedPower))
    ensures PowersAt(b, p, items)
  {
    LengthSpelled(b, ws, p, Column(items, SignedPower));
    forall i | 0 <= i < |items| ensures Int64At(b, p + 1 + i, items[i].power) {
      ElementSpelled(b, ws, p, items, SignedPower, i);
      SignedInWord(b, p + 1 + i, items[i].power);
    }
  }

  lemma {:induction false} Amounts(b: seq<Byte>, ws: seq<nat>, p: nat, items: seq<Transfer>)
    requires Spelled(b, ws) && ArrayAt(ws, p, Column(items, AmountWord))
    ensures AmountsAt(b, p, items)
  {
    LengthSpelled(b, ws, p, Column(items, AmountWord));
    forall i | 0 <= i < |items| ensures NumberAt(b, p + 1 + i, items[i].amount) {
      ElementSpelled(b, ws, p, items, AmountWord, i);
    }
  }

  lemma {:induction false} Destinations(b: seq<Byte>, ws: seq<nat>, p: nat, items: seq<Transfer>)
    requires Spelled(b, ws) && ArrayAt(ws, p, Column(items, DestinationWord))
    ensures DestinationsAt(b, p, items)
  {
    LengthSpelled(b, ws, p, Column(items, DestinationWord));
    forall i | 0 <= i < |items| ensures AddressAt(b, p + 1 + i, items[i].destination) {
      ElementSpelled(b, ws, p, items, DestinationWord, i);
      AddressTextInWord(b, p + 1 + i, items[i].destination);
    }
  }

  lemma {:induction false} Fees(b: seq<Byte>, ws: seq<nat>, p: nat, items: seq<Transfer>)
    requires Spelled(b, ws) && ArrayAt(ws, p, Column(items, FeeWord))
    ensures FeesAt(b, p, items)
  {
    LengthSpelled(b, ws, p, Column(items, FeeWord));
    forall i | 0 <= i < |items| ensures NumberAt(b, p + 1 + i, items[i].fee) {
      ElementSpelled(b, ws, p, items, FeeWord, i);
    }
  }

  lemma {:induction false} ValsetHeads(id: Id, v: Valset, n: nat, b: seq<Byte>, ws: seq<nat>)
    requires v.rewardAmount.Some? && Spelled(b, ws) && |ws| >= 7
    requires ws[0] == Value(id) && ws[1] == TextWord("checkpoint") && ws[2] == SignedWord(v.nonce)
    requires ws[3] == 224 && ws[4] == 224 + 32 * (1 + n)
    requires ws[5] == v.rewardAmount.value && ws[6] == AddressWord(HexToAddress(v.rewardToken))
    ensures ValsetFront(id, v, n, b)
  {
    assert NumberAt(b, 0, ws[0]) && NumberAt(b, 1, ws[1]) && NumberAt(b, 2, ws[2]) && NumberAt(b, 3, ws[3]);
    assert NumberAt(b, 4, ws[4]) && NumberAt(b, 5, ws[5]) && NumberAt(b, 6, ws[6]);
    IdInWord(b, 0, id);
    TextInWord(b, 1, "checkpoint");
    SignedInWord(b, 2, v.nonce);
    AddressTextInWord(b, 6, v.rewardToken);
  }

  lemma {:induction false} BatchHeads(id: Id, t: Batch, n: nat, b: seq<Byte>, ws: seq<nat>)
    requires Spelled(b, ws) && |ws| >= 8
    requires ws[0] == Value(id) && ws[1] == TextWord("transactionBatch")
    requires ws[2] == 256 && ws[3] == 256 + 32 * (1 + n) && ws[4] == 256 + 64 * (1 + n)
    requires ws[5] == SignedWord(t.nonce) && ws[6] == AddressWord(HexToAddress(t.token)) && ws[7] == SignedWord(t.timeout)
    ensures BatchFront(id, t, n, b)
  {
    assert NumberAt(b, 0, ws[0]) && NumberAt(b, 1, ws[1]) && NumberAt(b, 2, ws[2]) && NumberAt(b, 3, ws[3]);
    assert NumberAt(b, 4, ws[4]) && NumberAt(b, 5, ws[5]) && NumberAt(b, 6, ws[6]) && NumberAt(b, 7, ws[7]);
    IdInWord(b, 0, id);
    TextInWord(b, 1, "transactionBatch");
    SignedInWord(b, 5, t.nonce);
    AddressTextInWord(b, 6, t.token);
    SignedInWord(b, 7, t.timeout);
  }

  /** The words of a signed valset. */
  ghost predicate ValsetWordsAre(id: Id, v: Valset, ws: seq<nat>)
    requires v.rewardAmount.Some?
  {
    SevenWords(ws, Value(id), TextWord("checkpoint"), SignedWord(v.nonce), Column(v.members, MemberWord),
               Column(v.members, SignedPower), v.rewardAmount.value, AddressWord(HexToAddress(v.rewardToken)))
  }

  lemma {:induction false} SignedValsetWords(id: Id, v: Valset)
    requires v.rewardAmount.Some?
    ensures ValsetWordsAre(id, v, EncodeWords(SignedValset(id, v)))
  {
    var xs, ys := Column(v.members, MemberWord), Column(v.members, SignedPower);
    var name, token := TextWord("checkpoint"), AddressWord(HexToAddress(v.rewardToken));
    ValsetWords(SignedValset(id, v), Value(id), name, SignedWord(v.nonce), xs, ys, v.rewardAmount.value, token);
  }

  lemma {:induction false} ValsetLaidOut(id: Id, v: Valset, b: seq<Byte>, ws: seq<nat>)
    requires v.rewardAmount.Some? && ValsetWordsAre(id, v, ws) && Spelled(b, ws)
    ensures ValsetLayout(id, v, b)
  {
    ValsetHeads(id, v, |v.members|, b, ws);
    MemberAddresses(b, ws, 7, v.members);
    MemberPowers(b, ws, 8 + |v.members|, v.members);
  }

  /** The bytes before hashing are those of the layout: names, numbers, addresses and arrays in their places. */
  lemma ValsetBytes(id: Id, v: Valset)
    requires ValsetFits(id, v)
    ensures ValsetLayout(id, v, Encode(SignedValset(id, v)))
  {
    var vals := SignedValset(id, v);
    SignedValsetFits(id, v);
    EncodingSpells(vals);
    SignedValsetWords(id, v);
    ValsetLaidOut(id, v, Encode(vals), EncodeWords(vals));
  }

  lemma {:induction false} SignedBatchWords(id: Id, t: Batch, xs: seq<nat>, ys: seq<nat>, zs: seq<nat>, name: nat, token: nat)
    requires xs == Column(t.transfers, AmountWord) && ys == Column(t.transfers, DestinationWord) && zs == Column(t.transfers, FeeWord)
    requires name == TextWord("transactionBatch") && token == AddressWord(HexToAddress(t.token))
    ensures EightWords(EncodeWords(SignedBatch(id, t)), Value(id), name, xs, ys, zs, SignedWord(t.nonce), token, SignedWord(t.timeout))
  {
    BatchWords(SignedBatch(id, t), Value(id), name, xs, ys, zs, SignedWord(t.nonce), token, SignedWord(t.timeout));
  }

  lemma {:induction false} BatchFrontLaidOut(id: Id, t: Batch, b: seq<Byte>, ws: seq<nat>)
    requires ws == EncodeWords(SignedBatch(id, t)) && Spelled(b, ws)
    ensures |b| == 32 * (11 + 3 * |t.transfers|) && BatchFront(id, t, |t.transfers|, b)
  {
    SignedBatchWords(id, t, Column(t.transfers, AmountWord), Column(t.transfers, DestinationWord), Column(t.transfers, FeeWord),
                     TextWord("transactionBatch"), AddressWord(HexToAddress(t.token)));
    BatchHeads(id, t, |t.transfers|, b, ws);
  }

  /** Where the tails of a batch begin. */
  lemma {:induction false} BatchTails(vals: seq<Val>, id: Id, t: Batch, n: nat)
    requires vals == SignedBatch(id, t) && n == |t.transfers|
    ensures |vals| == 8 && TailStart(vals, 2) == 0 && TailStart(vals, 3) == 1 + n && TailStart(vals, 4) == 2 + 2 * n
    ensures vals[2] == Dynamic(Column(t.transfers, AmountWord)) && vals[3] == Dynamic(Column(t.transfers, DestinationWord))
    ensures vals[4] == Dynamic(Column(t.transfers, FeeWord))
  {
    BatchStarts(vals, 1 + n, 1 + n, 1 + n);
  }

  lemma {:induction false} AmountsLaidOut(id: Id, t: Batch, vals: seq<Val>, b: seq<Byte>)
    requires vals == SignedBatch(id, t) && Spelled(b, EncodeWords(vals))
    ensures AmountsAt(b, 8, t.transfers)
  {
    BatchTails(vals, id, t, |t.transfers|);
    WordsOfArray(vals, 2, 8);
    Amounts(b, EncodeWords(vals), 8, t.transfers);
  }

  lemma {:induction false} DestinationsLaidOut(id: Id, t: Batch, vals: seq<Val>, b: seq<Byte>)
    requires vals == SignedBatch(id, t) && Spelled(b, EncodeWords(vals))
    ensures DestinationsAt(b, 9 + |t.transfers|, t.transfers)
  {
    var p := 9 + |t.transfers|;
    BatchTails(vals, id, t, |t.transfers|);
    WordsOfArray(vals, 3, p);
    Destinations(b, EncodeWords(vals), p, t.transfers);
  }

  lemma {:induction false} FeesLaidOut(id: Id, t: Batch, vals: seq<Val>, b: seq<Byte>)
    requires vals == SignedBatch(id, t) && Spelled(b, EncodeWords(vals))
    ensures FeesAt(b, 10 + 2 * |t.transfers|, t.transfers)
  {
    var p := 10 + 2 * |t.transfers|;
    BatchTails(vals, id, t, |t.transfers|);
    WordsOfArray(vals, 4, p);
    Fees(b, EncodeWords(vals), p, t.transfers);
  }

  lemma BatchBytes(id: Id, t: Batch)
    requires BatchFits(id, t)
    ensures BatchLayout(id, t, Encode(SignedBatch(id, t)))
  {
    var vals := SignedBatch(id, t);
    SignedBatchFits(id, t);
    EncodingSpells(vals);
    BatchFrontLaidOut(id, t, Encode(vals), EncodeWords(vals));
    AmountsLaidOut(id, t, vals, Encode(vals));
    DestinationsLaidOut(id, t, vals, Encode(vals));
    FeesLaidOut(id, t, vals, Encode(vals));
  }

  // ----- as the program builds them

  /** The bytes that EncodeValsetConfirm hashes; it panics without a reward amount. */
  method EncodeValsetConfirm(id: Id, valset: Valset) returns (bytes: Option<seq<Byte>>)
    ensures bytes.None? <==> valset.rewardAmount.None?
    ensures bytes.Some? ==> bytes.value == Encode(SignedValset(id, valset))
    ensures bytes.Some? && ValsetFits(id, valset) ==> ValsetLayout(id, valset, bytes.value)
  {
    var addresses, powers := ConvertedMembers(valset);
    if valset.rewardAmount.None? {
      return None;
    }
    if ValsetFits(id, valset) {
      ValsetBytes(id, valset);
    }
    return Some(Encode(ValsetTuple(id, SignedWord(valset.nonce), addresses, powers, valset.rewardAmount.value,
                                   AddressWord(HexToAddress(valset.rewardToken)))));
  }

  /** The bytes that EncodeTxBatchConfirm hashes. */
  method EncodeTxBatchConfirm(id: Id, batch: Batch) returns (bytes: seq<Byte>)
    ensures bytes == Encode(SignedBatch(id, batch))
    ensures BatchFits(id, batch) ==> BatchLayout(id, batch, bytes)
  {
    var amounts, destinations, fees := GetBatchCheckpointValues(batch);
    if BatchFits(id, batch) {
      BatchBytes(id, batch);
    }
    return Encode(BatchTuple(id, amounts, destinations, fees, SignedWord(batch.nonce),
                             AddressWord(HexToAddress(batch.token)), SignedWord(batch.timeout)));
  }
}
