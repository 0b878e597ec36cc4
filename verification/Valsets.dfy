/** Member sets as the relayer compares them: sorted in place, then member by member. */
module Valsets {
  import opened Members
  import opened Sorting

  // ----- the canonical order

  /** Bytewise comparison of addresses. */
  predicate EthAddrLessThan(e: string, o: string) {
    if o == "" then false
    else if e == "" then true
    else if e[0] != o[0] then e[0] < o[0]
    else EthAddrLessThan(e[1..], o[1..])
  }

  /** The order of power, then address; `Before` is what the comparison function of the sort answers. */
  predicate Before(a: Member, b: Member) {
    if a.power == b.power then EthAddrLessThan(a.address, b.address) else a.power > b.power
  }

  predicate NotAfter(a: Member, b: Member) {
    !Before(b, a)
  }

  lemma {:induction false} AddressesCompare(e: string, o: string)
    ensures !EthAddrLessThan(e, o) && !EthAddrLessThan(o, e) <==> e == o
    ensures !(EthAddrLessThan(e, o) && EthAddrLessThan(o, e))
  {
    if e != "" && o != "" && e[0] == o[0] {
      AddressesCompare(e[1..], o[1..]);
      assert e == [e[0]] + e[1..] && o == [o[0]] + o[1..];
    }
  }

  lemma {:induction false} NotLessTransitive(a: string, b: string, c: string)
    requires !EthAddrLessThan(b, a) && !EthAddrLessThan(c, b)
    ensures !EthAddrLessThan(c, a)
  {
    if a != "" && b != "" && c != "" && a[0] == b[0] == c[0] {
      NotLessTransitive(a[1..], b[1..], c[1..]);
    }
  }

  /** Byte order without recursion: a proper prefix, or a smaller byte at the first difference. */
  ghost predicate InByteOrder(e: string, o: string, k: nat) {
    k <= |e| && k < |o| && e[..k] == o[..k] && (k == |e| || e[k] < o[k])
  }

  lemma FirstByte(e: string, o: string, k: nat)
    ensures InByteOrder(e, o, k) ==> o != "" && (e == "" || e[0] < o[0] || (k > 0 && e[0] == o[0]))
  {
    if InByteOrder(e, o, k) && k > 0 {
      assert e[..k][0] == o[..k][0];
    }
  }

  lemma {:induction false} LessThanMeans(e: string, o: string)
    ensures EthAddrLessThan(e, o) <==> exists k: nat :: InByteOrder(e, o, k)
  {
    if e != "" && o != "" && e[0] == o[0] {
      LessThanMeans(e[1..], o[1..]);
      forall k: nat | InByteOrder(e[1..], o[1..], k) ensures InByteOrder(e, o, k + 1) {
        assert e[..k + 1] == [e[0]] + e[1..][..k] && o[..k + 1] == [o[0]] + o[1..][..k];
      }
      forall k: nat | InByteOrder(e, o, k) ensures k > 0 && InByteOrder(e[1..], o[1..], k - 1) {
        assert e[..k][1..] == e[1..][..k - 1] && o[..k][1..] == o[1..][..k - 1];
      }
    } else if o != "" && (e == "" || e[0] < o[0]) {
      assert InByteOrder(e, o, 0);
    } else {
      forall k: nat ensures !InByteOrder(e, o, k) {
        FirstByte(e, o, k);
      }
    }
  }

  /** Greater power first; among equal powers the addresses in byte order. */
  ghost predicate Descending(members: seq<Member>) {
    forall i, j :: 0 <= i < j < |members| ==>
      && members[i].power >= members[j].power
      && (members[i].power == members[j].power && members[i].address != members[j].address ==>
            exists k: nat :: InByteOrder(members[i].address, members[j].address, k))
  }

  lemma CanonicalMeans(members: seq<Member>)
    requires Canonical(members)
    ensures Descending(members)
  {
    forall i, j | 0 <= i < j < |members|
      ensures members[i].power >= members[j].power
      ensures members[i].power == members[j].power && members[i].address != members[j].address ==>
              exists k: nat :: InByteOrder(members[i].address, members[j].address, k)
    {
      assert NotAfter(members[i], members[j]);
      AddressesCompare(members[i].address, members[j].address);
      LessThanMeans(members[i].address, members[j].address);
    }
  }

  /** The order is total, and only equal members compare equal. */
  lemma OrderIsTotal()
    ensures TotalOrder(NotAfter)
    ensures forall a, b :: NotAfter(a, b) && NotAfter(b, a) ==> a == b
  {
    forall a, b ensures NotAfter(a, b) || NotAfter(b, a) {
      AddressesCompare(a.address, b.address);
    }
    forall a, b, c | NotAfter(a, b) && NotAfter(b, c) ensures NotAfter(a, c) {
      if a.power == b.power == c.power {
        NotLessTransitive(a.address, b.address, c.address);
      }
    }
    forall a, b | NotAfter(a, b) && NotAfter(b, a) ensures a == b {
      AddressesCompare(a.address, b.address);
    }
  }

  ghost predicate Canonical(members: seq<Member>) {
    Ordered(members, NotAfter)
  }

  function Sorted(members: seq<Member>): seq<Member> {
    SortBy(members, NotAfter)
  }

  /** Sorting permutes, reaches the canonical order, and changes nothing exactly if it is there already. */
  lemma SortedIsCanonical(members: seq<Member>)
    ensures multiset(Sorted(members)) == multiset(members) && Canonical(Sorted(members))
    ensures Sorted(members) == members <==> Canonical(members)
  {
    OrderIsTotal();
    SortByOrders(members, NotAfter);
    if Canonical(members) {
      OrderedUnique(Sorted(members), members, NotAfter);
    }
  }

  lemma SameSorted(s: seq<Member>, t: seq<Member>)
    ensures Sorted(s) == Sorted(t) <==> multiset(s) == multiset(t)
    ensures |Sorted(s)| == |s|
  {
    SortedIsCanonical(s);
    SortedIsCanonical(t);
    OrderIsTotal();
    assert |multiset(Sorted(s))| == |Sorted(s)| && |multiset(s)| == |s|;
    if multiset(s) == multiset(t) {
      OrderedUnique(Sorted(s), Sorted(t), NotAfter);
    }
  }

  /** Both lists sorted: as long as before, equal exactly as multisets, and unchanged by another sort. */
  lemma SortAlike(s: seq<Member>, t: seq<Member>)
    ensures |Sorted(s)| == |s| && |Sorted(t)| == |t| && (Sorted(s) == Sorted(t) <==> multiset(s) == multiset(t))
    ensures Sorted(Sorted(t)) == Sorted(t)
  {
    SameSorted(s, t);
    SameSorted(t, s);
    SortedIsCanonical(t);
    SortedIsCanonical(Sorted(t));
  }

  // ----- the comparison

  datatype Verdict = Bootstrapping | Missing | WrongNonce | WrongLength | Compared(errors: nat)

  class Valset {
    const nonce: nat
    var members: seq<Member>
    const rewardAmount: nat
    const rewardToken: string

    constructor (nonce: nat, members: seq<Member>, rewardAmount: nat, rewardToken: string)
      ensures this.nonce == nonce && this.members == members
      ensures this.rewardAmount == rewardAmount && this.rewardToken == rewardToken
    {
      this.nonce, this.members, this.rewardAmount, this.rewardToken := nonce, members, rewardAmount, rewardToken;
    }

    method Sort()
      modifies this
      ensures multiset(members) == multiset(old(members)) && Canonical(members) && Descending(members)
      ensures members == Sorted(old(members))
    {
      SortedIsCanonical(members);
      CanonicalMeans(Sorted(members));
      members := Sorted(members);
    }
  }

  /** The errors that the comparison of two sorted lists logs. */
  method CountErrors(ours: seq<Member>, theirs: seq<Member>) returns (errors: nat)
    requires |ours| == |theirs|
    ensures errors == 0 <==> ours == theirs
  {
    errors := 0;
    for i := 0 to |ours|
      invariant errors == 0 <==> ours[..i] == theirs[..i]
    {
      assert ours[..i + 1] == ours[..i] + [ours[i]] && theirs[..i + 1] == theirs[..i] + [theirs[i]];
      if theirs[i].address != ours[i].address {
        errors := errors + 1;
      }
      if theirs[i].power != ours[i].power {
        errors := errors + 1;
      }
    }
    assert ours[..|ours|] == ours && theirs[..|ours|] == theirs;
  }

  /**
   With equal nonces and lengths an error is logged exactly if the two sets differ as multisets, and
   both lists are left in canonical order; on every other path they are not touched.
   */
  method CheckIfValsetsDiffer(cosmos: Valset?, ethereum: Valset) returns (verdict: Verdict)
    modifies cosmos, ethereum
    ensures verdict.Bootstrapping? <==> cosmos == null && ethereum.nonce == 0
    ensures verdict.Missing? <==> cosmos == null && ethereum.nonce != 0
    ensures verdict.WrongNonce? <==> cosmos != null && cosmos.nonce != ethereum.nonce
    ensures verdict.WrongLength? <==>
            cosmos != null && cosmos.nonce == ethereum.nonce && |old(cosmos.members)| != |old(ethereum.members)|
    ensures verdict.Compared? ==>
            (verdict.errors > 0 <==> multiset(old(cosmos.members)) != multiset(old(ethereum.members)))
    ensures ethereum.members == if verdict.Compared? then Sorted(old(ethereum.members)) else old(ethereum.members)
    ensures cosmos != null ==>
            cosmos.members == if verdict.Compared? then Sorted(old(cosmos.members)) else old(cosmos.members)
  {
    if cosmos == null && ethereum.nonce == 0 {
      return Bootstrapping;
    } else if cosmos == null {
      return Missing;
    }
    if cosmos.nonce != ethereum.nonce {
      return WrongNonce;
    }
    if |cosmos.members| != |ethereum.members| {
      return WrongLength;
    }
    SortAlike(cosmos.members, ethereum.members);
    cosmos.Sort();
    ethereum.Sort();
    var errors := CountErrors(cosmos.members, ethereum.members);
    return Compared(errors);
  }

  // ----- duplicates

  function Addresses(b: seq<Member>): set<string> {
    set v | v in b :: v.address
  }

  ghost predicate Distinct(b: seq<Member>) {
    forall i, j :: 0 <= i < j < |b| ==> b[i].address != b[j].address
  }

  lemma AddressesNext(front: seq<Member>, v: Member)
    ensures Addresses(front + [v]) == Addresses(front) + {v.address}
    ensures Distinct(front + [v]) <==> Distinct(front) && v.address !in Addresses(front)
  {
    var b := front + [v];
    assert forall i :: 0 <= i < |front| ==> b[i] == front[i];
    if Distinct(b) {
      forall i, j | 0 <= i < j < |front| ensures front[i].address != front[j].address {
        assert b[i].address != b[j].address;
      }
      forall u | u in front ensures u.address != v.address {
        var i :| 0 <= i < |front| && front[i] == u;
        assert b[i].address != b[|front|].address;
      }
    }
  }

  lemma {:induction false} DistinctCounts(b: seq<Member>)
    ensures |Addresses(b)| <= |b|
    ensures |Addresses(b)| == |b| <==> Distinct(b)
  {
    if b != [] {
      var n := |b| - 1;
      DistinctCounts(b[..n]);
      AddressesNext(b[..n], b[n]);
      assert b == b[..n] + [b[n]];
      if b[n].address in Addresses(b[..n]) {
        assert Addresses(b) == Addresses(b[..n]);
      }
    }
  }

  method HasDuplicates(b: seq<Member>) returns (r: bool)
    ensures r <==> exists i, j :: 0 <= i < j < |b| && b[i].address == b[j].address
  {
    var m: set<string> := {};
    for i := 0 to |b|
      invariant m == Addresses(b[..i])
    {
      AddressesNext(b[..i], b[i]);
      assert b[..i + 1] == b[..i] + [b[i]];
      m := m + {b[i].address};
    }
    assert b[..|b|] == b;
    DistinctCounts(b);
    return |m| != |b|;
  }
}
