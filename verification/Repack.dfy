/** Confirmations repacked into the five arrays the contract takes, and the power they carry. */
module Repack {
  import opened Hex
  import opened Threshold
  import opened Options
  import opened Members

  datatype BatchConfirm = BatchConfirm(ethSigner: string, signature: string)

  datatype ValsetConfirm = ValsetConfirm(ethAddress: string, signature: string)

  type Hash = b: seq<Byte> | |b| == 32 witness seq(32, _ => 0)

  datatype Vrs = Vrs(v: Byte, r: Hash, s: Hash)

  datatype Arrays = Arrays(validators: seq<Address>, powers: seq<nat>, v: seq<Byte>, r: seq<Hash>, s: seq<Hash>)

  datatype Error = NoSignatures | InsufficientVotingPower

  /** The arrays are returned also with the second error; a signature that is too short panics. */
  datatype Outcome = Panic | Returned(arrays: Arrays, error: Option<Error>)

  function NoHash(): Hash {
    seq(32, _ => 0)
  }

  // ----- signatures

  /** The parts of a signature in hexadecimal text: None if it has fewer than 65 bytes. */
  function Parts(signature: string): Option<Vrs> {
    var b := FromHex(signature);
    if |b| < 65 then None
    else Some(Vrs(if b[64] == 0 then 27 else if b[64] == 1 then 28 else b[64], b[0..32], b[32..64]))
  }

  /** The recovery byte as the contract takes it. */
  function ContractV(v: Byte): Byte {
    if v == 0 then 27 else if v == 1 then 28 else v
  }

  /** `parts` are the first 65 bytes of `b`: 32, 32 and one. */
  ghost predicate PartsOf(b: seq<Byte>, v: Byte, r: Hash, s: Hash) {
    |b| >= 65 && r + s == b[..64] && v == ContractV(b[64])
  }

  lemma PartsMean(signature: string)
    ensures Parts(signature).None? <==> |FromHex(signature)| < 65
    ensures Parts(signature).Some? ==> var p := Parts(signature).value; PartsOf(FromHex(signature), p.v, p.r, p.s)
  {
    var b := FromHex(signature);
    if |b| >= 65 {
      assert b[0..32] + b[32..64] == b[..64];
    }
  }

  /** A signature as it is stored, the hexadecimal text of r, s and v, gives back r, s and v. */
  lemma SignatureRoundTrip(r: Hash, s: Hash, v: Byte)
    ensures Parts(HexText(r + s + [v])) == Some(Vrs(if v == 0 then 27 else if v == 1 then 28 else v, r, s))
  {
    var b := r + s + [v];
    HexTextRoundTrip(b);
    assert b[0..32] == r && b[32..64] == s && b[64] == v;
  }

  method SigToVRS(sigHex: string) returns (parts: Option<Vrs>)
    ensures parts == Parts(sigHex)
    ensures parts.None? <==> |FromHex(sigHex)| < 65
    ensures parts.Some? ==> PartsOf(FromHex(sigHex), parts.value.v, parts.value.r, parts.value.s) && parts.value.v != 0
  {
    PartsMean(sigHex);
    var signatureBytes := FromHex(sigHex);
    if |signatureBytes| < 65 {
      return None;
    }
    var vParam := signatureBytes[64];
    if vParam == 0 {
      vParam := 27;
    } else if vParam == 1 {
      vParam := 28;
    }
    return Some(Vrs(vParam, signatureBytes[0..32], signatureBytes[32..64]));
  }

  // ----- what is computed

  datatype Confirm = Confirm(signer: string, signature: string)

  /** The signature of each signer; of several, the last. */
  function Signatures(confirms: seq<Confirm>): map<string, string> {
    if confirms == [] then map[]
    else
      var last := confirms[|confirms| - 1];
      Signatures(confirms[..|confirms| - 1])[last.signer := last.signature]
  }

  /** A member's entry: its signature's parts, or zeros without a confirmation. */
  function Entry(m: Member, sigs: map<string, string>): Option<Vrs> {
    if m.address in sigs then Parts(sigs[m.address]) else Some(Vrs(0, NoHash(), NoHash()))
  }

  function Append(a: Arrays, validator: Address, power: nat, e: Vrs): Arrays {
    Arrays(a.validators + [validator], a.powers + [power], a.v + [e.v], a.r + [e.r], a.s + [e.s])
  }

  function Build(members: seq<Member>, sigs: map<string, string>): Option<Arrays> {
    if members == [] then Some(Arrays([], [], [], [], []))
    else
      var m := members[|members| - 1];
      match (Build(members[..|members| - 1], sigs), Entry(m, sigs))
      case (Some(a), Some(e)) =>
        Some(Append(a, HexToAddress(m.address), m.power, e))
      case _ => None
  }

  /** The power of the members that are in `signers`. */
  function SignedPower(members: seq<Member>, signers: set<string>): nat {
    if members == [] then 0
    else
      var m := members[|members| - 1];
      SignedPower(members[..|members| - 1], signers) + if m.address in signers then m.power else 0
  }

  function Check(members: seq<Member>, confirms: seq<Confirm>): Outcome {
    if confirms == [] then Returned(Arrays([], [], [], [], []), Some(NoSignatures))
    else
      var sigs := Signatures(confirms);
      match Build(members, sigs)
      case None => Panic
      case Some(a) =>
        Returned(a, if Insufficient(SignedPower(members, sigs.Keys)) then Some(InsufficientVotingPower) else None)
  }

  function FromBatch(c: BatchConfirm): (r: Confirm)
    ensures r.signer == c.ethSigner && r.signature == c.signature
  {
    Confirm(c.ethSigner, c.signature)
  }

  function FromValset(c: ValsetConfirm): (r: Confirm)
    ensures r.signer == c.ethAddress && r.signature == c.signature
  {
    Confirm(c.ethAddress, c.signature)
  }

  function Map<S, T>(s: seq<S>, f: S -> T): (r: seq<T>)
    ensures |r| == |s| && forall i :: 0 <= i < |s| ==> r[i] == f(s[i])
  {
    seq(|s|, i requires 0 <= i < |s| => f(s[i]))
  }

  lemma SignaturesNext(confirms: seq<Confirm>, i: nat)
    requires i < |confirms|
    ensures Signatures(confirms[..i + 1]) == Signatures(confirms[..i])[confirms[i].signer := confirms[i].signature]
  {
    assert confirms[..i + 1][..i] == confirms[..i];
  }

  lemma BuildLast(front: seq<Member>, m: Member, sigs: map<string, string>, a: Arrays, e: Vrs)
    requires Build(front, sigs) == Some(a) && Entry(m, sigs) == Some(e)
    ensures Build(front + [m], sigs) == Some(Append(a, HexToAddress(m.address), m.power, e))
  {
    var all := front + [m];
    assert all[..|front|] == front && all[|front|] == m;
  }

  lemma BuildNext(members: seq<Member>, sigs: map<string, string>, i: nat, a: Arrays, e: Vrs)
    requires i < |members| && Build(members[..i], sigs) == Some(a) && Entry(members[i], sigs) == Some(e)
    ensures Build(members[..i + 1], sigs) == Some(Append(a, HexToAddress(members[i].address), members[i].power, e))
  {
    var front, m := members[..i], members[i];
    BuildLast(front, m, sigs, a, e);
    assert members[..i + 1] == front + [m];
  }

  lemma SignedPowerNext(members: seq<Member>, signers: set<string>, i: nat)
    requires i < |members|
    ensures SignedPower(members[..i + 1], signers) ==
            SignedPower(members[..i], signers) + if members[i].address in signers then members[i].power else 0
  {
    assert members[..i + 1][..i] == members[..i];
  }

  /** Once a member's signature panics, the whole call does. */
  lemma {:induction false} PanicSpreads(members: seq<Member>, sigs: map<string, string>, i: nat)
    requires i < |members| && Entry(members[i], sigs).None?
    ensures Build(members, sigs).None?
  {
    var n := |members| - 1;
    if i < n {
      PanicSpreads(members[..n], sigs, i);
    }
  }

  /** The second half of both functions: the members in order, then the threshold. */
  method PackMembers(members: seq<Member>, sigs: map<string, string>) returns (out: Outcome)
    ensures out == match Build(members, sigs)
                   case None => Panic
                   case Some(a) =>
                     Returned(a, if Insufficient(SignedPower(members, sigs.Keys)) then Some(InsufficientVotingPower) else None)
    ensures out.Returned? ==> Packed(members, sigs, out.arrays)
  {
    var validators: seq<Address>, powers: seq<nat> := [], [];
    var v: seq<Byte>, r: seq<Hash>, s: seq<Hash> := [], [], [];
    var powerOfGoodSigs := 0;
    for i := 0 to |members|
      invariant Build(members[..i], sigs) == Some(Arrays(validators, powers, v, r, s))
      invariant powerOfGoodSigs == SignedPower(members[..i], sigs.Keys)
    {
      var m := members[i];
      var address := HexToAddress(m.address);
      ghost var before := Arrays(validators, powers, v, r, s);
      SignedPowerNext(members, sigs.Keys, i);
      if m.address in sigs {
        powerOfGoodSigs := powerOfGoodSigs + m.power;
        validators, powers := validators + [address], powers + [m.power];
        var parts := SigToVRS(sigs[m.address]);
        if parts.None? {
          PanicSpreads(members, sigs, i);
          return Panic;
        }
        v, r, s := v + [parts.value.v], r + [parts.value.r], s + [parts.value.s];
        BuildNext(members, sigs, i, before, parts.value);
      } else {
        validators, powers := validators + [address], powers + [m.power];
        v, r, s := v + [0], r + [NoHash()], s + [NoHash()];
        BuildNext(members, sigs, i, before, Vrs(0, NoHash(), NoHash()));
      }
    }
    assert members[..|members|] == members;
    ghost var a := Arrays(validators, powers, v, r, s);
    BuildPacks(members, sigs);
    assert Packed(members, sigs, a);
    out := Returned(Arrays(validators, powers, v, r, s), None);
    if Insufficient(powerOfGoodSigs) {
      out := out.(error := Some(InsufficientVotingPower));
    }
  }

  method CheckBatchSigsAndRepack(members: seq<Member>, confirms: seq<BatchConfirm>) returns (out: Outcome)
    ensures out == Check(members, Map(confirms, FromBatch))
    ensures out.Returned? && confirms != [] ==> Packed(members, Signatures(Map(confirms, FromBatch)), out.arrays)
    ensures confirms == [] ==> out == Returned(Arrays([], [], [], [], []), Some(NoSignatures))
    ensures out.Returned? && out.error == Some(NoSignatures) ==> confirms == []
  {
    if |confirms| == 0 {
      return Returned(Arrays([], [], [], [], []), Some(NoSignatures));
    }
    ghost var plain := Map(confirms, FromBatch);
    var signerToSig: map<string, string> := map[];
    for i := 0 to |confirms|
      invariant signerToSig == Signatures(plain[..i])
    {
      SignaturesNext(plain, i);
      signerToSig := signerToSig[confirms[i].ethSigner := confirms[i].signature];
    }
    assert plain[..|confirms|] == plain;
    out := PackMembers(members, signerToSig);
  }

  method CheckValsetSigsAndRepack(members: seq<Member>, confirms: seq<ValsetConfirm>) returns (out: Outcome)
    ensures out == Check(members, Map(confirms, FromValset))
    ensures out.Returned? && confirms != [] ==> Packed(members, Signatures(Map(confirms, FromValset)), out.arrays)
    ensures confirms == [] ==> out == Returned(Arrays([], [], [], [], []), Some(NoSignatures))
    ensures out.Returned? && out.error == Some(NoSignatures) ==> confirms == []
  {
    if |confirms| == 0 {
      return Returned(Arrays([], [], [], [], []), Some(NoSignatures));
    }
    ghost var plain := Map(confirms, FromValset);
    var signerToSig: map<string, string> := map[];
    for i := 0 to |confirms|
      invariant signerToSig == Signatures(plain[..i])
    {
      SignaturesNext(plain, i);
      signerToSig := signerToSig[confirms[i].ethAddress := confirms[i].signature];
    }
    assert plain[..|confirms|] == plain;
    out := PackMembers(members, signerToSig);
  }

  // ----- what it means

  /** The five arrays belong to the members, one entry each and in their order. */
  ghost predicate Aligned(members: seq<Member>, sigs: map<string, string>, a: Arrays) {
    && |a.validators| == |a.powers| == |a.v| == |a.r| == |a.s| == |members|
    && forall i :: 0 <= i < |members| ==>
         && a.validators[i] == HexToAddress(members[i].address)
         && a.powers[i] == members[i].power
         && Entry(members[i], sigs) == Some(Vrs(a.v[i], a.r[i], a.s[i]))
  }

  /** The powers at the nonzero entries of `v`, as the contract will count them. */
  function MarkedPower(powers: seq<nat>, v: seq<Byte>): nat
    requires |powers| == |v|
  {
    if v == [] then 0
    else MarkedPower(powers[..|v| - 1], v[..|v| - 1]) + if v[|v| - 1] != 0 then powers[|v| - 1] else 0
  }

  lemma AppendAligns(members: seq<Member>, m: Member, sigs: map<string, string>, a: Arrays, e: Vrs)
    requires Aligned(members, sigs, a) && Entry(m, sigs) == Some(e)
    ensures Aligned(members + [m], sigs, Append(a, HexToAddress(m.address), m.power, e))
  {
    var validator, entry := HexToAddress(m.address), Entry(m, sigs);
    var all, b := members + [m], Append(a, validator, m.power, e);
    forall i | 0 <= i < |all|
      ensures b.validators[i] == HexToAddress(all[i].address) && b.powers[i] == all[i].power
      ensures Entry(all[i], sigs) == Some(Vrs(b.v[i], b.r[i], b.s[i]))
    {
      if i < |members| {
        assert all[i] == members[i];
        assert Entry(members[i], sigs) == Some(Vrs(a.v[i], a.r[i], a.s[i]));
      } else {
        assert all[i] == m;
      }
    }
  }

  /** The last step of a build that does not panic. */
  lemma BuildParts(front: seq<Member>, m: Member, sigs: map<string, string>) returns (a: Arrays, e: Vrs)
    requires Build(front + [m], sigs).Some?
    ensures Build(front, sigs) == Some(a) && Entry(m, sigs) == Some(e)
    ensures Build(front + [m], sigs) == Some(Append(a, HexToAddress(m.address), m.power, e))
  {
    var all := front + [m];
    assert all[..|front|] == front && all[|front|] == m;
    a, e := Build(front, sigs).value, Entry(m, sigs).value;
  }

  lemma {:induction false} BuildAligns(members: seq<Member>, sigs: map<string, string>)
    ensures Build(members, sigs).Some? ==> Aligned(members, sigs, Build(members, sigs).value)
  {
    if members != [] && Build(members, sigs).Some? {
      var front, m := members[..|members| - 1], members[|members| - 1];
      assert members == front + [m];
      var a, e := BuildParts(front, m, sigs);
      BuildAligns(front, sigs);
      AppendAligns(front, m, sigs, a, e);
    }
  }

  /** The call panics exactly if the signature found for some member has fewer than 65 bytes. */
  lemma {:induction false} PanicsExactly(members: seq<Member>, sigs: map<string, string>)
    ensures Build(members, sigs).None? <==>
            exists m :: m in members && m.address in sigs && |FromHex(sigs[m.address])| < 65
  {
    if members != [] {
      var n := |members| - 1;
      var last := members[n];
      PanicsExactly(members[..n], sigs);
      assert members == members[..n] + [last];
      assert Build(members, sigs).None? <==> Build(members[..n], sigs).None? || Entry(last, sigs).None?;
    }
  }

  /** v is nonzero exactly for the members that confirmed. */
  lemma MarksAreConfirmations(members: seq<Member>, sigs: map<string, string>, a: Arrays)
    requires Aligned(members, sigs, a)
    ensures forall i :: 0 <= i < |members| ==> (a.v[i] != 0 <==> members[i].address in sigs)
  {
    forall i | 0 <= i < |members| ensures a.v[i] != 0 <==> members[i].address in sigs {
      assert Entry(members[i], sigs) == Some(Vrs(a.v[i], a.r[i], a.s[i]));
    }
  }

  lemma {:induction false} MarkedIsSigned(members: seq<Member>, signers: set<string>, powers: seq<nat>, v: seq<Byte>)
    requires |members| == |powers| == |v|
    requires forall i :: 0 <= i < |members| ==> powers[i] == members[i].power && (v[i] != 0 <==> members[i].address in signers)
    ensures MarkedPower(powers, v) == SignedPower(members, signers)
  {
    if members != [] {
      var n := |members| - 1;
      MarkedIsSigned(members[..n], signers, powers[..n], v[..n]);
    }
  }

  /** What the arrays hold for one member: the bytes of its signature, or zeros. */
  ghost predicate SignatureAt(m: Member, sigs: map<string, string>, v: Byte, r: Hash, s: Hash) {
    if m.address in sigs then PartsOf(FromHex(sigs[m.address]), v, r, s) else v == 0 && r == NoHash() && s == NoHash()
  }

  lemma SignatureOf(m: Member, sigs: map<string, string>, v: Byte, r: Hash, s: Hash)
    requires Entry(m, sigs) == Some(Vrs(v, r, s))
    ensures SignatureAt(m, sigs, v, r, s)
  {
    if m.address in sigs {
      PartsMean(sigs[m.address]);
    }
  }

  /** The five arrays without reference to how they were built. */
  ghost predicate Packed(members: seq<Member>, sigs: map<string, string>, a: Arrays) {
    && |a.validators| == |a.powers| == |a.v| == |a.r| == |a.s| == |members|
    && forall i :: 0 <= i < |members| ==>
         && a.validators[i] == HexToAddress(members[i].address) && a.powers[i] == members[i].power
         && SignatureAt(members[i], sigs, a.v[i], a.r[i], a.s[i]) && (a.v[i] != 0 <==> members[i].address in sigs)
  }

  lemma AlignedIsPacked(members: seq<Member>, sigs: map<string, string>, a: Arrays)
    requires Aligned(members, sigs, a)
    ensures Packed(members, sigs, a)
  {
    MarksAreConfirmations(members, sigs, a);
    forall i | 0 <= i < |members| ensures SignatureAt(members[i], sigs, a.v[i], a.r[i], a.s[i]) {
      SignatureOf(members[i], sigs, a.v[i], a.r[i], a.s[i]);
    }
  }

  lemma BuildPacks(members: seq<Member>, sigs: map<string, string>)
    ensures Build(members, sigs).Some? ==> Packed(members, sigs, Build(members, sigs).value)
  {
    var built := Build(members, sigs);
    if built.Some? {
      BuildAligns(members, sigs);
      AlignedIsPacked(members, sigs, built.value);
    }
  }

  /**
   Arrays that are returned hold the members in order, with the bytes of each signature where its
   confirmation is; the power at nonzero v is the power that was compared with the threshold.
   */
  lemma ReturnedArrays(members: seq<Member>, confirms: seq<Confirm>)
    requires confirms != [] && Check(members, confirms).Returned?
    ensures var out := Check(members, confirms);
            && Packed(members, Signatures(confirms), out.arrays)
            && (out.error == if MarkedPower(out.arrays.powers, out.arrays.v) < ACCEPTED_FROM
                             then Some(InsufficientVotingPower) else None)
  {
    var a, sigs := Check(members, confirms).arrays, Signatures(confirms);
    BuildAligns(members, sigs);
    AlignedIsPacked(members, sigs, a);
    MarkedIsSigned(members, sigs.Keys, a.powers, a.v);
    InsufficientExactly(SignedPower(members, sigs.Keys));
  }

  /** Of several confirmations of one signer the last is used. */
  lemma {:induction false} LastSignature(confirms: seq<Confirm>, i: nat)
    requires i < |confirms| && forall j :: i < j < |confirms| ==> confirms[j].signer != confirms[i].signer
    ensures confirms[i].signer in Signatures(confirms) && Signatures(confirms)[confirms[i].signer] == confirms[i].signature
  {
    var n := |confirms| - 1;
    if i < n {
      LastSignature(confirms[..n], i);
    }
  }

  /** Who has confirmed, whatever the order and the repetitions. */
  function Signers(confirms: seq<Confirm>): set<string> {
    set c | c in confirms :: c.signer
  }

  lemma {:induction false} SignaturesKeys(confirms: seq<Confirm>)
    ensures Signatures(confirms).Keys == Signers(confirms)
  {
    if confirms != [] {
      var n := |confirms| - 1;
      SignaturesKeys(confirms[..n]);
      assert confirms == confirms[..n] + [confirms[n]];
    }
  }

  lemma {:induction false} SignedPowerGrows(members: seq<Member>, s: set<string>, t: set<string>)
    requires s <= t
    ensures SignedPower(members, s) <= SignedPower(members, t)
  {
    if members != [] {
      SignedPowerGrows(members[..|members| - 1], s, t);
    }
  }

  function Addresses(members: seq<Member>): set<string> {
    set m | m in members :: m.address
  }

  lemma {:induction false} SignedPowerOfMembers(members: seq<Member>, s: set<string>, all: set<string>)
    requires Addresses(members) <= all
    ensures SignedPower(members, s) == SignedPower(members, s * all)
  {
    if members != [] {
      var n := |members| - 1;
      assert members[n].address in Addresses(members);
      assert Addresses(members[..n]) <= Addresses(members);
      SignedPowerOfMembers(members[..n], s, all);
    }
  }

  function TotalPower(members: seq<Member>): nat {
    if members == [] then 0 else TotalPower(members[..|members| - 1]) + members[|members| - 1].power
  }

  lemma {:induction false} SignedPowerAtMostTotal(members: seq<Member>, s: set<string>)
    ensures SignedPower(members, s) <= TotalPower(members)
  {
    if members != [] {
      SignedPowerAtMostTotal(members[..|members| - 1], s);
    }
  }

  /** The power counted for a list of confirmations. */
  function Counted(members: seq<Member>, confirms: seq<Confirm>): nat {
    SignedPower(members, Signatures(confirms).Keys)
  }

  lemma {:induction false} SignedPowerExtremes(members: seq<Member>, s: set<string>)
    ensures Addresses(members) <= s ==> SignedPower(members, s) == TotalPower(members)
    ensures Addresses(members) !! s ==> SignedPower(members, s) == 0
  {
    if members != [] {
      var n := |members| - 1;
      assert members[n].address in Addresses(members);
      assert Addresses(members[..n]) <= Addresses(members);
      SignedPowerExtremes(members[..n], s);
    }
  }

  /**
   The counted power depends on which members confirmed and on nothing else: not on the order of
   the confirmations, on repetitions or on confirmations of others. It never exceeds the total and
   never falls when confirmations are added.
   */
  lemma CountedPower(members: seq<Member>, a: seq<Confirm>, b: seq<Confirm>)
    ensures Signers(a) * Addresses(members) == Signers(b) * Addresses(members) ==> Counted(members, a) == Counted(members, b)
    ensures Counted(members, a) <= TotalPower(members)
    ensures Addresses(members) <= Signers(a) ==> Counted(members, a) == TotalPower(members)
    ensures Addresses(members) !! Signers(a) ==> Counted(members, a) == 0
    ensures Counted(members, a) <= Counted(members, a + b) && Counted(members, b) <= Counted(members, a + b)
  {
    SignaturesKeys(a);
    SignaturesKeys(b);
    SignaturesKeys(a + b);
    SignedPowerOfMembers(members, Signers(a), Addresses(members));
    SignedPowerOfMembers(members, Signers(b), Addresses(members));
    SignedPowerAtMostTotal(members, Signers(a));
    SignedPowerExtremes(members, Signers(a));
    SignedPowerGrows(members, Signers(a), Signers(a + b));
    SignedPowerGrows(members, Signers(b), Signers(a + b));
  }
}
