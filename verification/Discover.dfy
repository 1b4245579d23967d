/** Placing every accelerator in exactly one fabric domain. */
module Discover {
  import opened Text
  import opened Sorting
  import opened Sensors
  import opened Fabric

  datatype FabricKind = XGmi | NVLink | Pcie

  datatype FabricDomain = FabricDomain(id: string, kind: FabricKind, members: seq<AcceleratorId>)

  /** The hasher: any function of the sorted addresses. */
  type Hash = seq<string> -> nat

  const HASHES := 0x1_0000_0000

  function HexNumber(n: nat): string {
    if n < 16 then [HexDigit(n)] else HexNumber(n / 16) + [HexDigit(n % 16)]
  }

  function Addresses(members: seq<AcceleratorId>): seq<string> {
    seq(|members|, i requires 0 <= i < |members| => members[i].pciAddr)
  }

  /** The hash of the sorted addresses, cut to 32 bits. */
  function ShortHash(members: seq<AcceleratorId>, hash: Hash): nat {
    hash(Sort(Addresses(members), Less)) % HASHES
  }

  function StableDomainId(members: seq<AcceleratorId>, hash: Hash): string {
    "fab-" + HexNumber(ShortHash(members, hash))
  }

  /** The value of a hexadecimal numeral. */
  function HexValue(s: string): int {
    if s == "" then 0 else 16 * HexValue(s[..|s| - 1]) + Nibble(s[|s| - 1])
  }

  lemma {:induction false} HexNumberReads(n: nat)
    ensures HexNumber(n) != "" && HexValue(HexNumber(n)) == n
    ensures forall c | c in HexNumber(n) :: 0 <= Nibble(c) < 16
    ensures n > 0 ==> HexNumber(n)[0] != '0'
  {
    hide Nibble, HexDigit;
    if n < 16 {
      NibbleReads(n);
      assert HexNumber(n)[..0] == "";
      FirstDigits(n);
    } else {
      HexNumberReads(n / 16);
      NibbleReads(n % 16);
    }
  }

  lemma FirstDigits(d: nat)
    requires d < 16
    ensures d > 0 ==> HexDigit(d) != '0'
  {
  }

  /** An id spells, in lower-case hexadecimal without leading zeros, the low 32 bits of the hash of
      the sorted addresses. */
  lemma DomainIdReads(members: seq<AcceleratorId>, hash: Hash, sorted: seq<string>) returns (digits: string)
    requires Sorted(sorted, Less) && multiset(sorted) == multiset(Addresses(members))
    ensures StableDomainId(members, hash) == "fab-" + digits
    ensures HexValue(digits) == hash(sorted) % 0x1_0000_0000
    ensures digits != "" && (digits == "0" || digits[0] != '0') && forall c | c in digits :: 0 <= Nibble(c) < 16
  {
    hide HexNumber, Nibble, Less;
    var n := ShortHash(members, hash);
    digits := HexNumber(n);
    HexNumberReads(n);
    StringOrder();
    SortSorts(Addresses(members), Less);
    SortedStringsUnique(sorted, Sort(Addresses(members), Less));
    assert HexNumber(0) == "0" by { ZeroIsZero(); }
  }

  lemma ZeroIsZero()
    ensures HexNumber(0) == "0"
  {
  }

  lemma StringOrder()
    ensures WeakOrder(Less)
  {
    forall x: string, y: string | Less(x, y)
      ensures !Less(y, x)
    {
      LessAsymmetric(x, y);
    }
    forall x: string, y: string, z: string | !Less(x, y) && !Less(y, z)
      ensures !Less(x, z)
    {
      NotLessTransitive(x, y, z);
    }
  }

  lemma SameFirstString(s: seq<string>, t: seq<string>)
    requires Sorted(s, Less) && Sorted(t, Less) && s != [] && t != [] && s[0] in t && t[0] in s
    ensures s[0] == t[0]
  {
    hide Less;
    var i :| 0 <= i < |t| && t[i] == s[0];
    var j :| 0 <= j < |s| && s[j] == t[0];
    LessIrreflexive(s[0]);
    assert !Less(s[0], t[0]) && !Less(t[0], s[0]);
    if s[0] != t[0] {
      LessConnected(s[0], t[0]);
    }
  }

  /** Sorted strings are determined by their bag: strings that tie are equal. */
  lemma {:induction false} SortedStringsUnique(s: seq<string>, t: seq<string>)
    requires Sorted(s, Less) && Sorted(t, Less) && multiset(s) == multiset(t)
    ensures s == t
  {
    hide Less;
    SameElements(s, t);
    if s != [] {
      SameFirstString(s, t);
      DropFirst(s);
      DropFirst(t);
      SortedStringsUnique(s[1..], t[1..]);
      assert s == [s[0]] + s[1..] && t == [t[0]] + t[1..];
    }
  }

  lemma TakeOut(b: seq<AcceleratorId>, j: nat)
    requires j < |b|
    ensures var rest := b[..j] + b[j + 1..];
      && multiset(rest) == multiset(b) - multiset{b[j]}
      && multiset(Addresses(b)) == multiset(Addresses(rest)) + multiset{b[j].pciAddr}
  {
    var x, left, right := b[j], b[..j], b[j + 1..];
    assert b == left + [x] + right;
    assert Addresses(b) == Addresses(left) + [x.pciAddr] + Addresses(right);
    assert Addresses(left + right) == Addresses(left) + Addresses(right);
  }

  lemma {:induction false} AddressesOfBag(a: seq<AcceleratorId>, b: seq<AcceleratorId>)
    requires multiset(a) == multiset(b)
    ensures multiset(Addresses(a)) == multiset(Addresses(b))
  {
    hide Addresses;
    SameElements(a, b);
    if a == [] {
      assert b == [];
    } else {
      assert a[0] in b;
      var j :| 0 <= j < |b| && b[j] == a[0];
      TakeOut(a, 0);
      TakeOut(b, j);
      AddressesOfBag(a[..0] + a[1..], b[..j] + b[j + 1..]);
    }
  }

  /** The id of a domain does not depend on the order of its members. */
  lemma DomainIdIgnoresOrder(a: seq<AcceleratorId>, b: seq<AcceleratorId>, hash: Hash)
    requires multiset(a) == multiset(b)
    ensures StableDomainId(a, hash) == StableDomainId(b, hash)
  {
    AddressesOfBag(a, b);
    StringOrder();
    SortSorts(Addresses(a), Less);
    SortSorts(Addresses(b), Less);
    SortedStringsUnique(Sort(Addresses(a), Less), Sort(Addresses(b), Less));
  }

  lemma {:induction false} HexNumberInjective(a: nat, b: nat)
    requires HexNumber(a) == HexNumber(b)
    ensures a == b
  {
    hide HexDigit;
    HexNumberLength(a);
    HexNumberLength(b);
    HexNumberEnds(a);
    HexNumberEnds(b);
    HexDigitInjective(a % 16, b % 16);
    if a >= 16 {
      HexNumberInjective(a / 16, b / 16);
    }
  }

  lemma HexNumberEnds(n: nat)
    ensures var s := HexNumber(n);
      && s != [] && s[|s| - 1] == HexDigit(n % 16)
      && (n >= 16 ==> s[..|s| - 1] == HexNumber(n / 16))
  {
    hide HexDigit;
  }

  lemma {:induction false} HexNumberLength(n: nat)
    ensures |HexNumber(n)| >= 1 && (|HexNumber(n)| == 1 <==> n < 16)
  {
  }

  /** The documented converse fails exactly when the short hashes collide: two member sets share
      an id if and only if their 32-bit hashes agree. */
  lemma SameIdIffSameShortHash(a: seq<AcceleratorId>, b: seq<AcceleratorId>, hash: Hash)
    ensures StableDomainId(a, hash) == StableDomainId(b, hash) <==> ShortHash(a, hash) == ShortHash(b, hash)
  {
    hide ShortHash;
    var s, t := HexNumber(ShortHash(a, hash)), HexNumber(ShortHash(b, hash));
    assert StableDomainId(a, hash)[4..] == s && StableDomainId(b, hash)[4..] == t;
    if s == t {
      HexNumberInjective(ShortHash(a, hash), ShortHash(b, hash));
    }
  }

  lemma {:induction false} BelowSize(n: nat) returns (all: set<nat>)
    ensures |all| == n && forall x: nat :: x in all <==> x < n
  {
    if n == 0 {
      all := {};
    } else {
      var rest := BelowSize(n - 1);
      var last: nat := n - 1;
      assert last !in rest;
      all := rest + {last};
    }
  }

  /** Either two of the first `k` numbers have one image, or the images are `k` in number. */
  lemma {:induction false} ImageSize(f: nat -> nat, k: nat) returns (image: set<nat>)
    ensures forall y :: y in image <==> exists i: nat :: i < k && f(i) == y
    ensures |image| == k || exists i: nat, j: nat :: i < j < k && f(i) == f(j)
  {
    if k == 0 {
      image := {};
    } else {
      var before := ImageSize(f, k - 1);
      image := before + {f(k - 1)};
      if |before| == k - 1 && f(k - 1) in before {
        var i: nat :| i < k - 1 && f(i) == f(k - 1);
      }
    }
  }

  lemma Pigeonhole(f: nat -> nat, n: nat)
    requires forall i: nat :: f(i) < n
    ensures exists i: nat, j: nat :: i < j && f(i) == f(j)
  {
    var image := ImageSize(f, n + 1);
    var below := BelowSize(n);
    if |image| == n + 1 {
      SubsetSize(image, below);
    }
  }

  /** One card at the `k`-th of endlessly many addresses. */
  function CardAt(k: nat): seq<AcceleratorId> {
    [AcceleratorId(Amd, k, Decimal(k))]
  }

  /** For every hasher there are different cards that share an id, so the documented converse
      holds for none. */
  lemma DifferentMembersSameId(hash: Hash) returns (a: seq<AcceleratorId>, b: seq<AcceleratorId>)
    ensures forall x | x in Addresses(a) :: x !in Addresses(b)
    ensures a != [] && b != [] && StableDomainId(a, hash) == StableDomainId(b, hash)
  {
    hide ShortHash, Decimal;
    var f: nat -> nat := k => ShortHash(CardAt(k), hash);
    forall k: nat
      ensures f(k) < HASHES
    {
      ShortHashIsShort(CardAt(k), hash);
    }
    Pigeonhole(f, HASHES);
    var i: nat, j: nat :| i < j && f(i) == f(j);
    a, b := CardAt(i), CardAt(j);
    SameIdIffSameShortHash(a, b, hash);
    DecimalRoundTrip(i);
    DecimalRoundTrip(j);
  }

  lemma ShortHashIsShort(members: seq<AcceleratorId>, hash: Hash)
    ensures ShortHash(members, hash) < HASHES
  {
  }

  // Placing accelerators

  function Ids(accels: seq<Accelerator>): (r: seq<AcceleratorId>)
    ensures |r| == |accels|
  {
    seq(|accels|, i requires 0 <= i < |accels| => accels[i].id)
  }

  function Placed(accels: seq<Accelerator>, members: seq<AcceleratorId>, id: string): (r: seq<Accelerator>)
    ensures |r| == |accels|
  {
    seq(|accels|, i requires 0 <= i < |accels| =>
      if accels[i].id in members then accels[i].(fabricDomain := Some(id)) else accels[i])
  }

  /** `iter_mut().find(|a| a.id == m)`, then assign. */
  method PlaceOne(accels: array<Accelerator>, m: AcceleratorId, id: string)
    requires Distinct(Ids(accels[..]))
    modifies accels
    ensures accels[..] == Placed(old(accels[..]), [m], id)
  {
    var i := 0;
    while i < accels.Length && accels[i].id != m
      invariant 0 <= i <= accels.Length
      invariant forall j | 0 <= j < i :: accels[j].id != m
    {
      i := i + 1;
    }
    ghost var before := accels[..];
    if i < accels.Length {
      assert forall j | 0 <= j < accels.Length && j != i :: before[j].id != m by {
        assert forall j | 0 <= j < accels.Length :: Ids(before)[j] == before[j].id;
      }
      accels[i] := accels[i].(fabricDomain := Some(id));
    }
    assert accels[..] == Placed(before, [m], id);
  }

  method AssignFabric(accels: array<Accelerator>, members: seq<AcceleratorId>, id: string)
    requires Distinct(Ids(accels[..]))
    modifies accels
    ensures accels[..] == Placed(old(accels[..]), members, id)
  {
    ghost var before := accels[..];
    assert before == Placed(before, [], id);
    for k := 0 to |members|
      invariant accels[..] == Placed(before, members[..k], id)
    {
      PlacedKeepsIds(before, members[..k], id);
      PlaceOne(accels, members[k], id);
      PlacedMore(before, members[..k], members[k], id);
      assert members[..k + 1] == members[..k] + [members[k]];
    }
    assert members[..|members|] == members;
  }

  lemma PlacedKeepsIds(accels: seq<Accelerator>, members: seq<AcceleratorId>, id: string)
    ensures Ids(Placed(accels, members, id)) == Ids(accels)
  {
  }

  lemma PlacedMore(accels: seq<Accelerator>, members: seq<AcceleratorId>, m: AcceleratorId, id: string)
    ensures Placed(Placed(accels, members, id), [m], id) == Placed(accels, members + [m], id)
  {
  }

  /** All members of all domains, domain after domain. */
  function AllMembers(domains: seq<FabricDomain>): seq<AcceleratorId> {
    if domains == [] then []
    else AllMembers(domains[..|domains| - 1]) + domains[|domains| - 1].members
  }

  lemma AllMembersSnoc(domains: seq<FabricDomain>, d: FabricDomain)
    ensures AllMembers(domains + [d]) == AllMembers(domains) + d.members
  {
  }

  /** `a` lies in domain `d` and carries its id. */
  ghost predicate LiesIn(a: Accelerator, d: FabricDomain) {
    a.id in d.members && a.fabricDomain == Some(d.id)
  }

  /** The accelerators placed so far are exactly the members of the domains so far, each once and
      with the id of its own domain. */
  ghost predicate Placing(ids: seq<AcceleratorId>, accels: seq<Accelerator>, domains: seq<FabricDomain>, hash: Hash) {
    && Ids(accels) == ids && Distinct(ids)
    && Distinct(AllMembers(domains))
    && (forall x | x in AllMembers(domains) :: x in ids)
    && (forall d | d in domains :: d.id == StableDomainId(d.members, hash))
    && (forall a | a in accels :: (a.id in AllMembers(domains) <==> a.fabricDomain.Some?))
    && (forall a | a in accels && a.fabricDomain.Some? :: exists d :: d in domains && LiesIn(a, d))
  }

  lemma PlaceDomain(ids: seq<AcceleratorId>, accels: seq<Accelerator>, domains: seq<FabricDomain>, hash: Hash,
                    d: FabricDomain)
    requires Placing(ids, accels, domains, hash)
    requires Distinct(d.members) && d.id == StableDomainId(d.members, hash)
    requires forall x | x in d.members :: x in ids && x !in AllMembers(domains)
    ensures Placing(ids, Placed(accels, d.members, d.id), domains + [d], hash)
  {
    hide StableDomainId;
    AllMembersSnoc(domains, d);
    PlacedKeepsIds(accels, d.members, d.id);
    DistinctAppend(AllMembers(domains), d.members);
    forall a | a in Placed(accels, d.members, d.id)
      ensures a.id in AllMembers(domains) + d.members <==> a.fabricDomain.Some?
      ensures a.fabricDomain.Some? ==> exists e :: e in domains + [d] && LiesIn(a, e)
    {
      PlaceOneMore(ids, accels, domains, hash, d, a);
    }
  }

  lemma DistinctAppend(a: seq<AcceleratorId>, b: seq<AcceleratorId>)
    requires Distinct(a) && Distinct(b) && forall x | x in b :: x !in a
    ensures Distinct(a + b)
  {
    forall i, j | 0 <= i < j < |a + b|
      ensures (a + b)[i] != (a + b)[j]
    {
      if i < |a| <= j {
        assert b[j - |a|] in b && a[i] in a;
      }
    }
  }

  lemma PlaceOneMore(ids: seq<AcceleratorId>, accels: seq<Accelerator>, domains: seq<FabricDomain>, hash: Hash,
                     d: FabricDomain, a: Accelerator)
    requires Placing(ids, accels, domains, hash) && a in Placed(accels, d.members, d.id)
    ensures a.id in AllMembers(domains) + d.members <==> a.fabricDomain.Some?
    ensures a.fabricDomain.Some? ==> exists e :: e in domains + [d] && LiesIn(a, e)
  {
    hide StableDomainId, AllMembers;
    var after := Placed(accels, d.members, d.id);
    var i :| 0 <= i < |after| && after[i] == a;
    assert accels[i] in accels;
    if a.id in d.members {
      assert d in domains + [d] && LiesIn(a, d);
    } else if a.fabricDomain.Some? {
      var e :| e in domains && LiesIn(accels[i], e);
      assert e in domains + [d] && LiesIn(a, e);
    }
  }

  function GroupDomains(groups: seq<seq<AcceleratorId>>, hash: Hash): seq<FabricDomain> {
    seq(|groups|, i requires 0 <= i < |groups| => FabricDomain(StableDomainId(groups[i], hash), XGmi, groups[i]))
  }

  lemma OneMoreGroupDomain(groups: seq<seq<AcceleratorId>>, k: nat, hash: Hash)
    requires k < |groups|
    ensures GroupDomains(groups[..k + 1], hash)
      == GroupDomains(groups[..k], hash) + [FabricDomain(StableDomainId(groups[k], hash), XGmi, groups[k])]
  {
    hide StableDomainId;
  }

  ghost predicate ThenSingles(domains: seq<FabricDomain>, first: seq<FabricDomain>) {
    && |first| <= |domains| && domains[..|first|] == first
    && forall k | |first| <= k < |domains| :: domains[k].kind == Pcie && |domains[k].members| == 1
  }

  lemma OneMoreSingle(domains: seq<FabricDomain>, first: seq<FabricDomain>, d: FabricDomain)
    requires ThenSingles(domains, first) && d.kind == Pcie && |d.members| == 1
    ensures ThenSingles(domains + [d], first)
  {
    assert (domains + [d])[..|first|] == domains[..|first|];
  }

  /** One xGMI domain per group, then single cards. */
  ghost predicate Laid(domains: seq<FabricDomain>, groups: seq<seq<AcceleratorId>>, hash: Hash) {
    ThenSingles(domains, GroupDomains(groups, hash))
  }

  /** The xGMI domains are the components of the graph with at least one link. */
  ghost predicate FromGroups(g: Graph, domains: seq<FabricDomain>, hash: Hash) {
    exists groups :: AreComponents(g, groups) && Laid(domains, groups, hash)
  }

  /** The group domains, then one domain per accelerator still unplaced. */
  method DiscoverDomains(accels: array<Accelerator>, hash: Hash) returns (domains: seq<FabricDomain>)
    requires Distinct(Ids(accels[..]))
    requires forall i | 0 <= i < accels.Length :: accels[i].fabricDomain.None?
    modifies accels
    ensures Placing(old(Ids(accels[..])), accels[..], domains, hash)
    ensures FromGroups(AmdGraph(old(accels[..])), domains, hash)
    ensures forall i | 0 <= i < accels.Length :: accels[i].fabricDomain.Some?
  {
    ghost var ids := Ids(accels[..]);
    var groups := BuildAmdXgmiGroups(accels[..]);
    ghost var g := AmdGraph(accels[..]);
    GroupMembers(accels[..], g, groups);
    domains := [];
    NothingPlaced(accels[..], hash);
    for k := 0 to |groups|
      invariant Placing(ids, accels[..], domains, hash)
      invariant domains == GroupDomains(groups[..k], hash)
      invariant forall x :: x in AllMembers(domains) ==> exists i :: 0 <= i < k && x in groups[i]
    {
      hide *;
      var members := groups[k];
      var id := StableDomainId(members, hash);
      GroupIsFresh(ids, groups, k, AllMembers(domains));
      ghost var before := accels[..];
      PlacingDistinct(ids, before, domains, hash);
      AssignFabric(accels, members, id);
      PlaceDomain(ids, before, domains, hash, FabricDomain(id, XGmi, members));
      AllMembersSnoc(domains, FabricDomain(id, XGmi, members));
      OneMoreGroupDomain(groups, k, hash);
      domains := domains + [FabricDomain(id, XGmi, members)];
    }
    assert groups[..|groups|] == groups;
    domains := PlaceRest(accels, hash, ids, domains);
    assert Laid(domains, groups, hash);
  }

  /** The single-card fallback. */
  method PlaceRest(accels: array<Accelerator>, hash: Hash, ghost ids: seq<AcceleratorId>, groups: seq<FabricDomain>)
    returns (domains: seq<FabricDomain>)
    requires Placing(ids, accels[..], groups, hash)
    modifies accels
    ensures Placing(ids, accels[..], domains, hash)
    ensures ThenSingles(domains, groups)
    ensures forall i | 0 <= i < accels.Length :: accels[i].fabricDomain.Some?
  {
    domains := groups;
    for i := 0 to accels.Length
      invariant Placing(ids, accels[..], domains, hash)
      invariant ThenSingles(domains, groups)
      invariant forall j | 0 <= j < i :: accels[j].fabricDomain.Some?
    {
      hide Placing, ThenSingles;
      if accels[i].fabricDomain.None? {
        var d := PlaceAlone(accels, i, hash, ids, domains);
        OneMoreSingle(domains, groups, d);
        domains := domains + [d];
      }
    }
  }

  /** A domain of its own for one card. */
  method PlaceAlone(accels: array<Accelerator>, i: nat, hash: Hash, ghost ids: seq<AcceleratorId>,
                    ghost domains: seq<FabricDomain>)
    returns (d: FabricDomain)
    requires i < accels.Length && accels[i].fabricDomain.None?
    requires Placing(ids, accels[..], domains, hash)
    modifies accels
    ensures Placing(ids, accels[..], domains + [d], hash) && d.kind == Pcie && d.members == [old(accels[i].id)]
    ensures accels[i].fabricDomain.Some?
    ensures forall j | 0 <= j < accels.Length && j != i :: accels[j] == old(accels[j])
  {
    hide StableDomainId, Placing, AllMembers;
    ghost var before := accels[..];
    var x := accels[i].id;
    var id := StableDomainId([x], hash);
    UnplacedIsFresh(ids, before, domains, hash, i);
    accels[i] := accels[i].(fabricDomain := Some(id));
    assert accels[..] == Placed(before, [x], id);
    d := FabricDomain(id, Pcie, [x]);
    PlaceDomain(ids, before, domains, hash, d);
  }

  lemma UnplacedIsFresh(ids: seq<AcceleratorId>, accels: seq<Accelerator>, domains: seq<FabricDomain>, hash: Hash, i: nat)
    requires Placing(ids, accels, domains, hash) && i < |accels| && accels[i].fabricDomain.None?
    ensures accels[i].id in ids && accels[i].id !in AllMembers(domains)
    ensures forall j | 0 <= j < |accels| && j != i :: accels[j].id != accels[i].id
  {
    assert accels[i] in accels && Ids(accels)[i] == accels[i].id;
    assert forall j | 0 <= j < |accels| :: Ids(accels)[j] == accels[j].id;
  }

  lemma PlacingDistinct(ids: seq<AcceleratorId>, accels: seq<Accelerator>, domains: seq<FabricDomain>, hash: Hash)
    requires Placing(ids, accels, domains, hash)
    ensures Distinct(Ids(accels)) && Ids(accels) == ids
  {
  }

  lemma NothingPlaced(accels: seq<Accelerator>, hash: Hash)
    requires Distinct(Ids(accels)) && forall i | 0 <= i < |accels| :: accels[i].fabricDomain.None?
    ensures Placing(Ids(accels), accels, [], hash)
    ensures AllMembers([]) == []
  {
  }

  /** Groups of accelerators: their members are accelerators, once each. */
  ghost predicate GroupsOf(ids: seq<AcceleratorId>, groups: seq<seq<AcceleratorId>>) {
    && (forall group | group in groups :: Distinct(group) && forall x | x in group :: x in ids)
    && (forall i, j | 0 <= i < j < |groups| :: forall x | x in groups[i] :: x !in groups[j])
  }

  lemma GroupMembers(accels: seq<Accelerator>, g: Graph, groups: seq<seq<AcceleratorId>>)
    requires g == AmdGraph(accels) && AreComponents(g, groups)
    ensures GroupsOf(Ids(accels), groups)
  {
    hide Linked, Connected, CardGraph;
    AmdCardsMeaning(accels);
    CardGraphIsGraph(AmdCards(accels));
    forall group, x | group in groups && x in group
      ensures x in Ids(accels)
    {
      assert x in g;
      var a :| a in AmdCards(accels) && a.id == x;
      var i :| 0 <= i < |accels| && accels[i] == a;
      assert Ids(accels)[i] == x;
    }
  }

  lemma GroupIsFresh(ids: seq<AcceleratorId>, groups: seq<seq<AcceleratorId>>, k: nat, placed: seq<AcceleratorId>)
    requires GroupsOf(ids, groups) && k < |groups|
    requires forall x :: x in placed ==> exists i :: 0 <= i < k && x in groups[i]
    ensures Distinct(groups[k]) && forall x | x in groups[k] :: x in ids && x !in placed
  {
  }

  /** Domain `k`, and no other, holds `a`, which carries its id. */
  ghost predicate OnlyIn(a: Accelerator, domains: seq<FabricDomain>, k: int) {
    && 0 <= k < |domains| && LiesIn(a, domains[k])
    && forall j | 0 <= j < |domains| && j != k :: a.id !in domains[j].members
  }

  /** Every accelerator is a member of exactly one domain, and carries that domain's id. */
  lemma EachInExactlyOneDomain(ids: seq<AcceleratorId>, accels: seq<Accelerator>, domains: seq<FabricDomain>, hash: Hash)
    requires Placing(ids, accels, domains, hash) && forall a | a in accels :: a.fabricDomain.Some?
    ensures multiset(AllMembers(domains)) == multiset(ids)
    ensures forall a | a in accels :: exists k :: OnlyIn(a, domains, k)
  {
    hide StableDomainId;
    assert forall x :: x in AllMembers(domains) <==> x in ids by {
      forall x | x in ids
        ensures x in AllMembers(domains)
      {
        var i :| 0 <= i < |ids| && ids[i] == x;
        assert Ids(accels)[i] == x && accels[i] in accels;
      }
    }
    SameBag(AllMembers(domains), ids);
    forall a | a in accels
      ensures exists k :: OnlyIn(a, domains, k)
    {
      var d :| d in domains && LiesIn(a, d);
      var k :| 0 <= k < |domains| && domains[k] == d;
      forall j | 0 <= j < |domains| && j != k
        ensures a.id !in domains[j].members
      {
        OneDomainEach(domains, a.id, j, k);
      }
      assert OnlyIn(a, domains, k);
    }
  }

  lemma {:induction false} MemberInAll(domains: seq<FabricDomain>, x: AcceleratorId, k: nat)
    requires k < |domains| && x in domains[k].members
    ensures x in AllMembers(domains)
  {
    var last := |domains| - 1;
    if k < last {
      MemberInAll(domains[..last], x, k);
    }
  }

  lemma {:induction false} OneDomainEach(domains: seq<FabricDomain>, x: AcceleratorId, j: nat, k: nat)
    requires Distinct(AllMembers(domains)) && j < |domains| && k < |domains| && j != k
    requires x in domains[k].members
    ensures x !in domains[j].members
  {
    var last := |domains| - 1;
    var before := AllMembers(domains[..last]);
    assert AllMembers(domains) == before + domains[last].members;
    assert Distinct(before) by {
      assert forall i | 0 <= i < |before| :: before[i] == AllMembers(domains)[i];
    }
    if x in domains[j].members {
      if j < last && k < last {
        OneDomainEach(domains[..last], x, j, k);
      } else {
        MemberInAll(domains[..last], x, if j < last then j else k);
        SplitsApart(before, domains[last].members, x);
      }
    }
  }

  lemma SplitsApart(a: seq<AcceleratorId>, b: seq<AcceleratorId>, x: AcceleratorId)
    requires Distinct(a + b) && x in a
    ensures x !in b
  {
    var i :| 0 <= i < |a| && a[i] == x;
    forall j | 0 <= j < |b|
      ensures b[j] != x
    {
      assert (a + b)[i] == x && (a + b)[|a| + j] == b[j];
    }
  }

  /** Two different accelerators end up in one domain exactly when a chain of xGMI links joins
      them. */
  lemma SharedDomainIffJoined(accels: seq<Accelerator>, domains: seq<FabricDomain>, hash: Hash,
                              x: AcceleratorId, y: AcceleratorId)
    requires FromGroups(AmdGraph(accels), domains, hash) && x != y
    ensures (exists d :: d in domains && x in d.members && y in d.members)
      <==> x in AmdGraph(accels) && Connected(AmdGraph(accels), x, y)
  {
    hide AmdGraph, AreComponents, StableDomainId, Linked, Connected;
    var g := AmdGraph(accels);
    var groups :| AreComponents(g, groups) && Laid(domains, groups, hash);
    GroupsMeaning(accels, groups, x, y);
    if exists d :: d in domains && x in d.members && y in d.members {
      var d :| d in domains && x in d.members && y in d.members;
      var k :| 0 <= k < |domains| && domains[k] == d;
      assert k < |groups|;
      assert domains[..|groups|][k] == d;
      assert groups[k] in groups;
    }
    if x in g && Connected(g, x, y) {
      JoinedHasLink(g, x, y);
      var group :| group in groups && x in group && y in group;
      var k :| 0 <= k < |groups| && groups[k] == group;
      assert domains[..|groups|][k].members == group;
      assert domains[k] in domains;
    }
  }

  lemma JoinedHasLink(g: Graph, x: AcceleratorId, y: AcceleratorId)
    requires Connected(g, x, y) && x != y
    ensures x in g && g[x] != {}
  {
    var path :| IsPath(g, path) && path[0] == x && path[|path| - 1] == y;
    assert path[1] in g[path[0]];
  }

  /** A domain is an xGMI domain exactly when its members are linked; any other is a PCIe domain of
      one card. */
  lemma KindMeaning(ids: seq<AcceleratorId>, placed: seq<Accelerator>, g: Graph, domains: seq<FabricDomain>, hash: Hash,
                    k: nat, x: AcceleratorId)
    requires Placing(ids, placed, domains, hash) && FromGroups(g, domains, hash)
    requires k < |domains| && x in domains[k].members
    ensures domains[k].kind == if x in g && g[x] != {} then XGmi else Pcie
    ensures domains[k].kind == Pcie ==> domains[k].members == [x]
  {
    hide Placing, StableDomainId, Connected;
    var groups :| AreComponents(g, groups) && Laid(domains, groups, hash);
    DomainsDistinct(ids, placed, domains, hash);
    if k < |groups| {
      assert domains[..|groups|][k] == domains[k] && groups[k] in groups;
    } else if x in g && g[x] != {} {
      var group :| group in groups && x in group;
      var j :| 0 <= j < |groups| && groups[j] == group;
      assert domains[..|groups|][j] == domains[j];
      OneDomainEach(domains, x, k, j);
    }
  }

  lemma DomainsDistinct(ids: seq<AcceleratorId>, placed: seq<Accelerator>, domains: seq<FabricDomain>, hash: Hash)
    requires Placing(ids, placed, domains, hash)
    ensures Distinct(AllMembers(domains))
  {
  }
}
