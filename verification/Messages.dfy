/** The tuples that validators sign and the tuples that relayers submit, up to the bytes before hashing. */
module Messages {
  import opened Hex
  import opened Abi
  import opened Options
  import opened Members

  const TWO63: int := 0x8000_0000_0000_0000

  /** The peggy ID: 32 bytes. */
  type Id = b: seq<Byte> | |b| == 32 witness Zeros(32)

  datatype Valset = Valset(nonce: Uint64, members: seq<Member>, rewardAmount: Option<nat>, rewardToken: string)

  datatype Transfer = Transfer(amount: nat, destination: string, fee: nat)

  datatype Batch = Batch(nonce: Uint64, timeout: Uint64, transfers: seq<Transfer>, token: string)

  // ----- words

  function AddressWord(a: Address): nat {
    Value(a)
  }

  /** Text in the first bytes of a word. */
  function TextWord(s: string): nat
    requires |s| <= 32 && forall i :: 0 <= i < |s| ==> s[i] as int < 256
  {
    Value(seq<Byte>(|s|, i requires 0 <= i < |s| => s[i] as int) + Zeros(32 - |s|))
  }

  /** The signer converts through int64: a number of 2^63 or more becomes negative. */
  function Int64(n: Uint64): int {
    if n < TWO63 then n else n - TWO64
  }

  /** The word of a signed number: two's complement if it is negative. */
  function SignedWord(n: Uint64): nat {
    LimitIsLarge();
    if Int64(n) < 0 then Limit() + Int64(n) else Int64(n)
  }

  /** Different numbers are signed as different words; signed and submitted words agree below 2^63 only. */
  lemma WordsAgree(m: Uint64, n: Uint64)
    ensures SignedWord(m) == SignedWord(n) <==> m == n
    ensures SignedWord(n) == n <==> n < TWO63
    ensures SignedWord(n) < Limit()
  {
    LimitIsLarge();
  }

  // ----- the tuples

  function Column<T>(items: seq<T>, word: T -> nat): (r: seq<nat>)
    ensures |r| == |items| && forall i :: 0 <= i < |r| ==> r[i] == word(items[i])
  {
    if items == [] then [] else Column(items[..|items| - 1], word) + [word(items[|items| - 1])]
  }

  lemma ColumnNext<T>(items: seq<T>, word: T -> nat, i: nat)
    requires i < |items|
    ensures Column(items[..i + 1], word) == Column(items[..i], word) + [word(items[i])]
  {
    assert items[..i + 1][..i] == items[..i];
  }

  function MemberWord(m: Member): nat {
    AddressWord(HexToAddress(m.address))
  }

  function SignedPower(m: Member): nat {
    SignedWord(m.power)
  }

  function SubmittedPower(m: Member): nat {
    m.power
  }

  function AmountWord(t: Transfer): nat {
    t.amount
  }

  function DestinationWord(t: Transfer): nat {
    AddressWord(HexToAddress(t.destination))
  }

  function FeeWord(t: Transfer): nat {
    t.fee
  }

  function ValsetTuple(id: Id, nonce: nat, addresses: seq<nat>, powers: seq<nat>, reward: nat, token: nat): seq<Val> {
    [ Static(Value(id)), Static(TextWord("checkpoint")), Static(nonce), Dynamic(addresses), Dynamic(powers), Static(reward), Static(token) ]
  }

  function BatchTuple(id: Id, amounts: seq<nat>, destinations: seq<nat>, fees: seq<nat>,
                      nonce: nat, token: nat, timeout: nat): seq<Val>
  {
    [ Static(Value(id)), Static(TextWord("transactionBatch")), Dynamic(amounts), Dynamic(destinations), Dynamic(fees),
      Static(nonce), Static(token), Static(timeout) ]
  }

  function SignedValset(id: Id, valset: Valset): seq<Val>
    requires valset.rewardAmount.Some?
  {
    ValsetTuple(id, SignedWord(valset.nonce), Column(valset.members, MemberWord), Column(valset.members, SignedPower),
                valset.rewardAmount.value, AddressWord(HexToAddress(valset.rewardToken)))
  }

  function SubmittedValset(id: Id, valset: Valset): seq<Val>
    requires valset.rewardAmount.Some?
  {
    ValsetTuple(id, valset.nonce, Column(valset.members, MemberWord), Column(valset.members, SubmittedPower),
                valset.rewardAmount.value, AddressWord(HexToAddress(valset.rewardToken)))
  }

  function SignedBatch(id: Id, batch: Batch): seq<Val> {
    BatchTuple(id, Column(batch.transfers, AmountWord), Column(batch.transfers, DestinationWord), Column(batch.transfers, FeeWord),
               SignedWord(batch.nonce), AddressWord(HexToAddress(batch.token)), SignedWord(batch.timeout))
  }

  function SubmittedBatch(id: Id, batch: Batch): seq<Val> {
    BatchTuple(id, Column(batch.transfers, AmountWord), Column(batch.transfers, DestinationWord), Column(batch.transfers, FeeWord),
               batch.nonce, AddressWord(HexToAddress(batch.token)), batch.timeout)
  }

  // ----- as the program builds them

  method ConvertedMembers(valset: Valset) returns (addresses: seq<nat>, powers: seq<nat>)
    ensures addresses == Column(valset.members, MemberWord) && powers == Column(valset.members, SignedPower)
  {
    addresses, powers := [], [];
    for i := 0 to |valset.members|
      invariant addresses == Column(valset.members[..i], MemberWord)
      invariant powers == Column(valset.members[..i], SignedPower)
    {
      ColumnNext(valset.members, MemberWord, i);
      ColumnNext(valset.members, SignedPower, i);
      addresses := addresses + [MemberWord(valset.members[i])];
      powers := powers + [SignedPower(valset.members[i])];
    }
    assert valset.members[..|valset.members|] == valset.members;
  }

  /** The arrays of a valset as they are submitted. */
  method ValidatorsAndPowers(valset: Valset) returns (validators: seq<nat>, powers: seq<nat>)
    ensures validators == Column(valset.members, MemberWord) && powers == Column(valset.members, SubmittedPower)
  {
    validators, powers := [], [];
    for i := 0 to |valset.members|
      invariant validators == Column(valset.members[..i], MemberWord)
      invariant powers == Column(valset.members[..i], SubmittedPower)
    {
      ColumnNext(valset.members, MemberWord, i);
      ColumnNext(valset.members, SubmittedPower, i);
      validators := validators + [MemberWord(valset.members[i])];
      powers := powers + [SubmittedPower(valset.members[i])];
    }
    assert valset.members[..|valset.members|] == valset.members;
  }

  /** The arrays of a batch, the same for signing and for submitting. */
  method GetBatchCheckpointValues(batch: Batch) returns (amounts: seq<nat>, destinations: seq<nat>, fees: seq<nat>)
    ensures amounts == Column(batch.transfers, AmountWord)
    ensures destinations == Column(batch.transfers, DestinationWord)
    ensures fees == Column(batch.transfers, FeeWord)
  {
    amounts, destinations, fees := [], [], [];
    for i := 0 to |batch.transfers|
      invariant amounts == Column(batch.transfers[..i], AmountWord)
      invariant destinations == Column(batch.transfers[..i], DestinationWord)
      invariant fees == Column(batch.transfers[..i], FeeWord)
    {
      ColumnNext(batch.transfers, AmountWord, i);
      ColumnNext(batch.transfers, DestinationWord, i);
      ColumnNext(batch.transfers, FeeWord, i);
      amounts := amounts + [AmountWord(batch.transfers[i])];
      destinations := destinations + [DestinationWord(batch.transfers[i])];
      fees := fees + [FeeWord(batch.transfers[i])];
    }
    assert batch.transfers[..|batch.transfers|] == batch.transfers;
  }

  // ----- what the bytes say

  /** The message that a valset's bytes stand for: addresses are compared as addresses, not as text. */
  ghost predicate SameValset(v: Valset, w: Valset) {
    && v.nonce == w.nonce
    && |v.members| == |w.members|
    && (forall i :: 0 <= i < |v.members| ==>
          && HexToAddress(v.members[i].address) == HexToAddress(w.members[i].address)
          && v.members[i].power == w.members[i].power)
    && v.rewardAmount == w.rewardAmount
    && HexToAddress(v.rewardToken) == HexToAddress(w.rewardToken)
  }

  ghost predicate SameBatch(a: Batch, b: Batch) {
    && a.nonce == b.nonce && a.timeout == b.timeout
    && |a.transfers| == |b.transfers|
    && (forall i :: 0 <= i < |a.transfers| ==>
          && a.transfers[i].amount == b.transfers[i].amount
          && HexToAddress(a.transfers[i].destination) == HexToAddress(b.transfers[i].destination)
          && a.transfers[i].fee == b.transfers[i].fee)
    && HexToAddress(a.token) == HexToAddress(b.token)
  }

  /** Amounts are 256-bit numbers and the encoding can be addressed. */
  ghost predicate ValsetFits(id: Id, v: Valset) {
    v.rewardAmount.Some? && v.rewardAmount.value < Limit() && |Encode(SignedValset(id, v))| < Limit()
  }

  ghost predicate BatchFits(id: Id, b: Batch) {
    && (forall i :: 0 <= i < |b.transfers| ==> b.transfers[i].amount < Limit() && b.transfers[i].fee < Limit())
    && |Encode(SignedBatch(id, b))| < Limit()
  }

  lemma ValueFits(b: seq<Byte>)
    requires |b| <= 32
    ensures Value(b) < Limit()
  {
    ValueBelow(b, Zeros(32));
  }

  lemma TextFits(s: string)
    requires |s| <= 32 && forall i :: 0 <= i < |s| ==> s[i] as int < 256
    ensures TextWord(s) < Limit()
  {
    ValueFits(seq<Byte>(|s|, i requires 0 <= i < |s| => s[i] as int) + Zeros(32 - |s|));
  }

  ghost predicate ColumnFits(xs: seq<nat>, limit: nat) {
    forall i :: 0 <= i < |xs| ==> xs[i] < limit
  }

  lemma AddressFits(text: string)
    ensures AddressWord(HexToAddress(text)) < Limit()
  {
    ValueFits(HexToAddress(text));
  }

  lemma ColumnOf<T>(items: seq<T>, word: T -> nat, limit: nat)
    requires forall x :: x in items ==> word(x) < limit
    ensures ColumnFits(Column(items, word), limit)
  {
  }

  lemma MemberColumnsFit(ms: seq<Member>)
    ensures ColumnFits(Column(ms, MemberWord), Limit()) && ColumnFits(Column(ms, SignedPower), Limit())
  {
    var limit := Limit();
    forall m | m in ms ensures MemberWord(m) < limit {
      AddressFits(m.address);
    }
    ColumnOf(ms, MemberWord, limit);
    forall m | m in ms ensures SignedPower(m) < limit {
      WordsAgree(m.power, 0);
    }
    ColumnOf(ms, SignedPower, limit);
  }

  lemma DestinationColumnFits(ts: seq<Transfer>)
    ensures ColumnFits(Column(ts, DestinationWord), Limit())
  {
    var limit := Limit();
    forall t | t in ts ensures DestinationWord(t) < limit {
      AddressFits(t.destination);
    }
    ColumnOf(ts, DestinationWord, limit);
  }

  /** Seven arguments of a valset, whatever their words. */
  lemma ValsetArgumentsFit(vals: seq<Val>, a: nat, b: nat, c: nat, xs: seq<nat>, ys: seq<nat>, d: nat, e: nat, limit: nat)
    requires vals == [Static(a), Static(b), Static(c), Dynamic(xs), Dynamic(ys), Static(d), Static(e)]
    requires a < limit && b < limit && c < limit && ColumnFits(xs, limit) && ColumnFits(ys, limit) && d < limit && e < limit
    requires |Encode(vals)| < limit
    ensures Fits(vals, limit)
  {
    assert ValFits(vals[0], limit) && ValFits(vals[1], limit) && ValFits(vals[2], limit) && ValFits(vals[3], limit);
    assert ValFits(vals[4], limit) && ValFits(vals[5], limit) && ValFits(vals[6], limit);
  }

  /** Eight arguments of a batch, whatever their words. */
  lemma BatchArgumentsFit(vals: seq<Val>, a: nat, b: nat, xs: seq<nat>, ys: seq<nat>, zs: seq<nat>, c: nat, d: nat, e: nat, limit: nat)
    requires vals == [Static(a), Static(b), Dynamic(xs), Dynamic(ys), Dynamic(zs), Static(c), Static(d), Static(e)]
    requires a < limit && b < limit && ColumnFits(xs, limit) && ColumnFits(ys, limit) && ColumnFits(zs, limit)
    requires c < limit && d < limit && e < limit && |Encode(vals)| < limit
    ensures Fits(vals, limit)
  {
    assert ValFits(vals[0], limit) && ValFits(vals[1], limit) && ValFits(vals[2], limit) && ValFits(vals[3], limit);
    assert ValFits(vals[4], limit) && ValFits(vals[5], limit) && ValFits(vals[6], limit) && ValFits(vals[7], limit);
  }

  lemma ValsetTupleFits(id: Id, nonce: nat, xs: seq<nat>, ys: seq<nat>, reward: nat, token: nat)
    requires nonce < Limit() && ColumnFits(xs, Limit()) && ColumnFits(ys, Limit()) && reward < Limit() && token < Limit()
    requires |Encode(ValsetTuple(id, nonce, xs, ys, reward, token))| < Limit()
    ensures Fits(ValsetTuple(id, nonce, xs, ys, reward, token), Limit())
  {
    ValueFits(id);
    TextFits("checkpoint");
    ValsetArgumentsFit(ValsetTuple(id, nonce, xs, ys, reward, token), Value(id), TextWord("checkpoint"), nonce,
                       xs, ys, reward, token, Limit());
  }

  lemma BatchTupleFits(id: Id, xs: seq<nat>, ys: seq<nat>, zs: seq<nat>, nonce: nat, token: nat, timeout: nat)
    requires ColumnFits(xs, Limit()) && ColumnFits(ys, Limit()) && ColumnFits(zs, Limit())
    requires nonce < Limit() && token < Limit() && timeout < Limit()
    requires |Encode(BatchTuple(id, xs, ys, zs, nonce, token, timeout))| < Limit()
    ensures Fits(BatchTuple(id, xs, ys, zs, nonce, token, timeout), Limit())
  {
    ValueFits(id);
    TextFits("transactionBatch");
    var vals, a, name := BatchTuple(id, xs, ys, zs, nonce, token, timeout), Value(id), TextWord("transactionBatch");
    BatchArgumentsFit(vals, a, name, xs, ys, zs, nonce, token, timeout, Limit());
  }

  const VALSET_SHAPE := [false, false, false, true, true, false, false]
  const BATCH_SHAPE := [false, false, true, true, true, false, false, false]

  lemma ShapeOf(vals: seq<Val>, shape: seq<bool>)
    requires |vals| == |shape| && forall i :: 0 <= i < |vals| ==> (vals[i].Dynamic? <==> shape[i])
    ensures Shape(vals) == shape
  {
  }

  lemma SignedValsetShape(id: Id, v: Valset)
    requires v.rewardAmount.Some?
    ensures Shape(SignedValset(id, v)) == VALSET_SHAPE
  {
    ShapeOf(SignedValset(id, v), VALSET_SHAPE);
  }

  lemma SignedBatchShape(id: Id, b: Batch)
    ensures Shape(SignedBatch(id, b)) == BATCH_SHAPE
  {
    ShapeOf(SignedBatch(id, b), BATCH_SHAPE);
  }

  lemma SignedValsetFits(id: Id, v: Valset)
    requires ValsetFits(id, v)
    ensures Fits(SignedValset(id, v), Limit())
  {
    ValueFits(HexToAddress(v.rewardToken));
    WordsAgree(v.nonce, v.nonce);
    MemberColumnsFit(v.members);
    ValsetTupleFits(id, SignedWord(v.nonce), Column(v.members, MemberWord), Column(v.members, SignedPower),
                    v.rewardAmount.value, AddressWord(HexToAddress(v.rewardToken)));
  }

  lemma SignedBatchFits(id: Id, b: Batch)
    requires BatchFits(id, b)
    ensures Fits(SignedBatch(id, b), Limit())
  {
    ValueFits(HexToAddress(b.token));
    WordsAgree(b.timeout, b.nonce);
    WordsAgree(b.nonce, b.timeout);
    DestinationColumnFits(b.transfers);
    ColumnOf(b.transfers, AmountWord, Limit());
    ColumnOf(b.transfers, FeeWord, Limit());
    BatchTupleFits(id, Column(b.transfers, AmountWord), Column(b.transfers, DestinationWord), Column(b.transfers, FeeWord),
                   SignedWord(b.nonce), AddressWord(HexToAddress(b.token)), SignedWord(b.timeout));
  }

  lemma ColumnAt<T>(xs: seq<T>, ys: seq<T>, word: T -> nat, i: nat)
    requires Column(xs, word) == Column(ys, word) && i < |xs|
    ensures |xs| == |ys| && word(xs[i]) == word(ys[i])
  {
    assert |Column(xs, word)| == |xs| && |Column(ys, word)| == |ys|;
    assert Column(xs, word)[i] == Column(ys, word)[i];
  }

  lemma MemberDetermined(ms: seq<Member>, ns: seq<Member>, i: nat)
    requires Column(ms, MemberWord) == Column(ns, MemberWord) && Column(ms, SignedPower) == Column(ns, SignedPower)
    requires i < |ms|
    ensures |ms| == |ns| && HexToAddress(ms[i].address) == HexToAddress(ns[i].address) && ms[i].power == ns[i].power
  {
    ColumnAt(ms, ns, MemberWord, i);
    ColumnAt(ms, ns, SignedPower, i);
    ValueInjective(HexToAddress(ms[i].address), HexToAddress(ns[i].address));
    WordsAgree(ms[i].power, ns[i].power);
  }

  lemma TransferDetermined(ss: seq<Transfer>, ts: seq<Transfer>, i: nat)
    requires Column(ss, AmountWord) == Column(ts, AmountWord) && Column(ss, FeeWord) == Column(ts, FeeWord)
    requires Column(ss, DestinationWord) == Column(ts, DestinationWord) && i < |ss|
    ensures |ss| == |ts| && ss[i].amount == ts[i].amount && ss[i].fee == ts[i].fee
    ensures HexToAddress(ss[i].destination) == HexToAddress(ts[i].destination)
  {
    ColumnAt(ss, ts, AmountWord, i);
    ColumnAt(ss, ts, FeeWord, i);
    ColumnAt(ss, ts, DestinationWord, i);
    ValueInjective(HexToAddress(ss[i].destination), HexToAddress(ts[i].destination));
  }

  /** The fields of a signed valset, read off its arguments. */
  lemma ValsetFields(id: Id, v: Valset, id': Id, v': Valset)
    requires v.rewardAmount.Some? && v'.rewardAmount.Some? && SignedValset(id, v) == SignedValset(id', v')
    ensures Value(id) == Value(id') && SignedWord(v.nonce) == SignedWord(v'.nonce) && v.rewardAmount == v'.rewardAmount
    ensures Column(v.members, MemberWord) == Column(v'.members, MemberWord)
    ensures Column(v.members, SignedPower) == Column(v'.members, SignedPower)
    ensures Value(HexToAddress(v.rewardToken)) == Value(HexToAddress(v'.rewardToken))
  {
    var a, b := SignedValset(id, v), SignedValset(id', v');
    assert a[0] == b[0] && a[2] == b[2] && a[3] == b[3] && a[4] == b[4] && a[5] == b[5] && a[6] == b[6];
  }

  lemma ValsetFromArguments(id: Id, v: Valset, id': Id, v': Valset)
    requires v.rewardAmount.Some? && v'.rewardAmount.Some? && SignedValset(id, v) == SignedValset(id', v')
    ensures id == id' && SameValset(v, v')
  {
    ValsetFields(id, v, id', v');
    ValueInjective(id, id');
    WordsAgree(v.nonce, v'.nonce);
    ValueInjective(HexToAddress(v.rewardToken), HexToAddress(v'.rewardToken));
    assert |v.members| == |Column(v.members, MemberWord)| == |v'.members|;
    forall i | 0 <= i < |v.members|
      ensures HexToAddress(v.members[i].address) == HexToAddress(v'.members[i].address)
      ensures v.members[i].power == v'.members[i].power
    {
      MemberDetermined(v.members, v'.members, i);
    }
  }

  /** The bytes that are hashed determine the peggy ID and the valset. */
  lemma ValsetDetermined(id: Id, v: Valset, id': Id, v': Valset)
    requires ValsetFits(id, v) && ValsetFits(id', v')
    requires Encode(SignedValset(id, v)) == Encode(SignedValset(id', v'))
    ensures id == id' && SameValset(v, v')
  {
    SignedValsetFits(id, v);
    SignedValsetFits(id', v');
    SignedValsetShape(id, v);
    SignedValsetShape(id', v');
    EncodeInjective(SignedValset(id, v), SignedValset(id', v'));
    ValsetFromArguments(id, v, id', v');
  }

  /** The fields of a signed batch, read off its arguments. */
  lemma BatchFields(id: Id, b: Batch, id': Id, b': Batch)
    requires SignedBatch(id, b) == SignedBatch(id', b')
    ensures Value(id) == Value(id') && SignedWord(b.nonce) == SignedWord(b'.nonce) && SignedWord(b.timeout) == SignedWord(b'.timeout)
    ensures Column(b.transfers, AmountWord) == Column(b'.transfers, AmountWord)
    ensures Column(b.transfers, DestinationWord) == Column(b'.transfers, DestinationWord)
    ensures Column(b.transfers, FeeWord) == Column(b'.transfers, FeeWord)
    ensures Value(HexToAddress(b.token)) == Value(HexToAddress(b'.token))
  {
    var p, q := SignedBatch(id, b), SignedBatch(id', b');
    assert p[0] == q[0] && p[2] == q[2] && p[3] == q[3] && p[4] == q[4] && p[5] == q[5] && p[6] == q[6] && p[7] == q[7];
  }

  lemma BatchFromArguments(id: Id, b: Batch, id': Id, b': Batch)
    requires SignedBatch(id, b) == SignedBatch(id', b')
    ensures id == id' && SameBatch(b, b')
  {
    BatchFields(id, b, id', b');
    ValueInjective(id, id');
    WordsAgree(b.nonce, b'.nonce);
    WordsAgree(b.timeout, b'.timeout);
    ValueInjective(HexToAddress(b.token), HexToAddress(b'.token));
    assert |b.transfers| == |Column(b.transfers, AmountWord)| == |b'.transfers|;
    forall i | 0 <= i < |b.transfers|
      ensures b.transfers[i].amount == b'.transfers[i].amount && b.transfers[i].fee == b'.transfers[i].fee
      ensures HexToAddress(b.transfers[i].destination) == HexToAddress(b'.transfers[i].destination)
    {
      TransferDetermined(b.transfers, b'.transfers, i);
    }
  }

  /** The bytes that are hashed determine the peggy ID and the batch. */
  lemma BatchDetermined(id: Id, b: Batch, id': Id, b': Batch)
    requires BatchFits(id, b) && BatchFits(id', b')
    requires Encode(SignedBatch(id, b)) == Encode(SignedBatch(id', b'))
    ensures id == id' && SameBatch(b, b')
  {
    SignedBatchFits(id, b);
    SignedBatchFits(id', b');
    SignedBatchShape(id, b);
    SignedBatchShape(id', b');
    EncodeInjective(SignedBatch(id, b), SignedBatch(id', b'));
    BatchFromArguments(id, b, id', b');
  }

  lemma NamesDiffer()
    ensures TextWord("checkpoint") != TextWord("transactionBatch")
  {
    var s, t := "checkpoint", "transactionBatch";
    var a := seq<Byte>(|s|, i requires 0 <= i < |s| => s[i] as int) + Zeros(32 - |s|);
    var b := seq<Byte>(|t|, i requires 0 <= i < |t| => t[i] as int) + Zeros(32 - |t|);
    assert a[0] != b[0];
    if TextWord(s) == TextWord(t) {
      ValueInjective(a, b);
    }
  }

  lemma SecondWord(vals: seq<Val>)
    requires Fits(vals, Limit()) && |vals| > 1 && vals[1].Static?
    ensures WordAt(Abi.Words(Encode(vals)), 1) == vals[1].word
  {
    DecodeEncoded(vals);
    assert Decode(Encode(vals), Shape(vals))[1] == vals[1];
  }

  /** A signature on a valset is never one on a batch: their bytes differ, whatever the peggy IDs. */
  lemma ValsetIsNoBatch(id: Id, v: Valset, id': Id, b: Batch)
    requires ValsetFits(id, v) && BatchFits(id', b)
    ensures Encode(SignedValset(id, v)) != Encode(SignedBatch(id', b))
  {
    SignedValsetFits(id, v);
    SignedBatchFits(id', b);
    SecondWord(SignedValset(id, v));
    SecondWord(SignedBatch(id', b));
    NamesDiffer();
  }

  /** The submitted valset is the signed one exactly when its nonce and all its powers are below 2^63. */
  lemma ValsetSubmittedAsSigned(id: Id, v: Valset)
    requires v.rewardAmount.Some?
    ensures SubmittedValset(id, v) == SignedValset(id, v) <==>
            v.nonce < TWO63 && forall i :: 0 <= i < |v.members| ==> v.members[i].power < TWO63
  {
    var a, b := SignedValset(id, v), SubmittedValset(id, v);
    WordsAgree(v.nonce, v.nonce);
    forall i | 0 <= i < |v.members|
      ensures SignedPower(v.members[i]) == SubmittedPower(v.members[i]) <==> v.members[i].power < TWO63
    {
      WordsAgree(v.members[i].power, v.members[i].power);
    }
    if a == b {
      assert a[2] == b[2] && a[4] == b[4];
      forall i | 0 <= i < |v.members| ensures v.members[i].power < TWO63 {
        assert Column(v.members, SignedPower)[i] == Column(v.members, SubmittedPower)[i];
      }
    } else if forall i :: 0 <= i < |v.members| ==> v.members[i].power < TWO63 {
      assert Column(v.members, SignedPower) == Column(v.members, SubmittedPower);
    }
  }

  /** The submitted batch is the signed one exactly when its nonce and its timeout are below 2^63. */
  lemma BatchSubmittedAsSigned(id: Id, b: Batch)
    ensures SubmittedBatch(id, b) == SignedBatch(id, b) <==> b.nonce < TWO63 && b.timeout < TWO63
  {
    var p, q := SignedBatch(id, b), SubmittedBatch(id, b);
    WordsAgree(b.nonce, b.nonce);
    WordsAgree(b.timeout, b.timeout);
    if p == q {
      assert p[5] == q[5] && p[7] == q[7];
    }
  }
}
