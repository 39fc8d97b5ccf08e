/** The translation look-aside buffer: what its entries may claim, and how refills move through it. */
module TlbEntries {
  import opened Eei
  import opened Sv39Spec

  datatype Entry = Entry(
    valid: bool, vpn: nat, ppn: nat, asid: nat, level: nat, global_: bool,
    user: bool, read: bool, write: bool, execute: bool, accessed: bool, dirty: bool)

  const EMPTY := Entry(false, 0, 0, 0, 0, false, false, false, false, false, false, false)

  /** The entries and the slot the next insertion takes. */
  datatype Contents = Contents(entries: seq<Entry>, replace: nat) {
    predicate Shaped() { replace < |entries| }
  }

  predicate VpnMatches(e: Entry, vpn: nat) { VpnPrefix(e.vpn, e.level) == VpnPrefix(vpn, e.level) }

  predicate AsidMatches(e: Entry, asid: nat) { e.global_ || e.asid == asid }

  predicate MatchesLookup(e: Entry, vpn: nat, asid: nat) { e.valid && VpnMatches(e, vpn) && AsidMatches(e, asid) }

  predicate MatchesRefill(e: Entry, r: Entry) {
    if !e.valid then false
    else if e.level != r.level then false
    else if !VpnMatches(e, r.vpn) then false
    else if e.global_ != r.global_ then false
    else if r.global_ then true
    else e.asid == r.asid
  }

  function PermissionDetail(e: Entry, q: Access): Sv39Fault {
    if q.kind == Read && !(e.read || (q.mxr && e.execute)) then LOAD_R
    else if q.kind == Write && !e.write then STORE_W
    else if q.kind == Exec && !e.execute then FETCH_X
    else if q.priv == U && !e.user then PTE_U
    else if q.priv == S && e.user && q.kind == Exec then PTE_U
    else if q.priv == S && e.user && !q.sum then PTE_SUM
    else if !e.accessed then PTE_A
    else if q.kind == Write && !e.dirty then PTE_D
    else NONE
  }

  predicate AllowsAccess(e: Entry, q: Access) {
    var kind := match q.kind case Read => e.read || (q.mxr && e.execute) case Write => e.write case Exec => e.execute;
    var mode :=
      if q.priv == U then kind && e.user
      else if q.priv == S && e.user then if q.kind == Exec then false else kind && q.sum
      else kind;
    var aged := mode && e.accessed;
    if q.kind == Write then aged && e.dirty else aged
  }

  /** What the buffer answers from a matched entry. */
  function Answer(e: Entry, q: Access): Translation {
    if AllowsAccess(e, q) then Translation(Spliced(e.ppn, e.level, q.va), false, NONE, NoCause, q.va)
    else Translation(Spliced(e.ppn, e.level, q.va), true, PermissionDetail(e, q), PageFault(q.kind), q.va)
  }

  /** The leaf an entry stands for. */
  function LeafOf(e: Entry): Walked {
    Leaf(Pte(true, e.read, e.write, e.execute, e.user, e.global_, e.accessed, e.dirty, e.ppn, false), e.level)
  }

  function EntryFor(va: nat, asid: nat, p: Pte, level: nat): Entry {
    Entry(true, Vpn(va), p.ppn, asid, level, p.g, p.u, p.r, p.w, p.x, p.a, p.d)
  }

  /** Every lookup the entry would answer walks to the leaf it stands for. */
  ghost predicate EntryOk(w: World, e: Entry) {
    e.valid ==>
      && e.level <= 2 && e.ppn % PagesIn(e.level) == 0
      && forall vpn: nat, asid: nat :: asid in w.live && MatchesLookup(e, vpn, asid) ==>
           Walk(w, vpn, w.root(asid), 2) == LeafOf(e)
  }

  ghost predicate AllOk(w: World, s: seq<Entry>) { forall e :: e in s ==> EntryOk(w, e) }

  /** What tells two entries apart; the ASID does not count for a global mapping. */
  datatype Key = Key(level: nat, prefix: nat, global_: bool, asid: nat)

  function KeyOf(e: Entry): Key {
    Key(e.level, VpnPrefix(e.vpn, e.level), e.global_, if e.global_ then 0 else e.asid)
  }

  ghost predicate KeysApart(s: seq<Entry>) {
    forall i, j :: 0 <= i < j < |s| && s[i].valid && s[j].valid ==> KeyOf(s[i]) != KeyOf(s[j])
  }

  /** Index of the first entry a refill would replace in place. */
  function FirstMatch(s: seq<Entry>, r: Entry): (i: nat)
    ensures i <= |s|
    ensures i < |s| ==> MatchesRefill(s[i], r)
    ensures forall j :: 0 <= j < i ==> !MatchesRefill(s[j], r)
  {
    if s == [] then 0
    else if MatchesRefill(s[0], r) then 0
    else
      var rest := FirstMatch(s[1..], r);
      assert forall j :: 0 < j < 1 + rest ==> s[j] == s[1..][j - 1];
      1 + rest
  }

  predicate Inserts(c: Contents, r: Entry) { FirstMatch(c.entries, r) == |c.entries| }

  /** One refill: overwrite the entry with the same key, or the next slot in turn. */
  function Refilled(c: Contents, r: Entry): (c': Contents)
    requires c.Shaped()
    ensures c'.Shaped() && |c'.entries| == |c.entries|
  {
    var i := FirstMatch(c.entries, r);
    if i < |c.entries| then c.(entries := c.entries[i := r])
    else Contents(c.entries[c.replace := r], if c.replace == |c.entries| - 1 then 0 else c.replace + 1)
  }

  function Flushed(c: Contents): (c': Contents)
    ensures |c'.entries| == |c.entries|
    ensures forall e :: e in c'.entries ==> !e.valid
  {
    Contents(seq(|c.entries|, i requires 0 <= i < |c.entries| => c.entries[i].(valid := false)), 0)
  }

  // ---- answers ----

  lemma PermissionAgrees(e: Entry, q: Access)
    ensures AllowsAccess(e, q) <==> PermissionDetail(e, q) == NONE
  {
  }

  /** An answer from the buffer is the direct translation exactly for canonical addresses. */
  lemma HitIsWalk(w: World, e: Entry, q: Access, satp: Satp)
    requires EntryOk(w, e) && NeedsWalk(q, satp) && InSpace(w, q, satp)
    requires MatchesLookup(e, Vpn(q.va), satp.asid)
    ensures Agree(Answer(e, q), Translate(w, q, satp)) <==> Canonical(q.va)
  {
    hide Canonical, Vpn, VpnPrefix, Spliced, PageAddress, PagesIn, Walk;
    PermissionAgrees(e, q);
    assert Walk(w, Vpn(q.va), satp.ppn, 2) == LeafOf(e);
    SplicedIsPageAddress(LeafOf(e).pte, e.level, q.va);
    assert PermissionDetail(e, q) == Objection(LeafOf(e).pte, e.level, q);
  }

  /** Tables that map every page by one gigabyte page at address 0. */
  const STRAY_LEAF := Pte(true, true, true, true, false, false, true, true, 0, false)
  const STRAY_WORLD := World(a => STRAY_LEAF, a => true, a => true, asid => 0, {0})

  /** A read just above the lower half of the address space, which is no canonical address. */
  const STRAY_READ := Access(0x40_0000_0000, S, Read, false, false)

  const STRAY_ENTRY := EntryFor(STRAY_READ.va, 0, STRAY_LEAF, 2)

  lemma OneSpace()
    ensures Sane(STRAY_WORLD)
  {
    hide Walk;
  }

  lemma StrayEntryOk()
    ensures EntryOk(STRAY_WORLD, STRAY_ENTRY)
  {
    hide EntryOk, VpnPart, PteAddr, Vpn;
    OneSpace();
    assert Walk(STRAY_WORLD, Vpn(STRAY_READ.va), 0, 2) == Leaf(STRAY_LEAF, 2);
    RefillOk(STRAY_WORLD, STRAY_READ.va, 0, STRAY_LEAF, 2);
  }

  /** The entry for the page that shares its low 39 bits answers it with address 0, where the walk refuses. */
  lemma StrayHit()
    ensures var satp := Satp(8, 0, 0);
      && EntryOk(STRAY_WORLD, STRAY_ENTRY) && NeedsWalk(STRAY_READ, satp) && InSpace(STRAY_WORLD, STRAY_READ, satp)
      && MatchesLookup(STRAY_ENTRY, Vpn(STRAY_READ.va), satp.asid)
      && Answer(STRAY_ENTRY, STRAY_READ) == Translation(0, false, NONE, NoCause, STRAY_READ.va)
      && Translate(STRAY_WORLD, STRAY_READ, satp).fault
  {
    hide EntryOk, Walk, Vpn;
    StrayEntryOk();
  }

  /** Whichever of two matching entries answers, the answer is the same. */
  lemma MatchingEntriesAgree(w: World, e: Entry, f: Entry, q: Access, asid: nat)
    requires EntryOk(w, e) && EntryOk(w, f) && asid in w.live
    requires MatchesLookup(e, Vpn(q.va), asid) && MatchesLookup(f, Vpn(q.va), asid)
    ensures Answer(e, q) == Answer(f, q)
  {
    hide Vpn, Spliced, PagesIn, Walk;
    assert LeafOf(e) == LeafOf(f);
  }

  // ---- contents ----

  /** A leaf found by a walk may be cached, and stands for every address it covers. */
  lemma RefillOk(w: World, va: nat, asid: nat, p: Pte, level: nat)
    requires Sane(w) && asid in w.live
    requires Walk(w, Vpn(va), w.root(asid), 2) == Leaf(p, level) && p.ppn % PagesIn(level) == 0
    ensures EntryOk(w, EntryFor(va, asid, p, level))
  {
    hide Vpn, PagesIn, Walk, VpnPrefix;
    var e := EntryFor(va, asid, p, level);
    LeafForm(w, Vpn(va), w.root(asid), 2);
    WalkPrefix(w, Vpn(va), Vpn(va), w.root(asid), 2);
    forall vpn: nat, b: nat | b in w.live && MatchesLookup(e, vpn, b)
      ensures Walk(w, vpn, w.root(b), 2) == LeafOf(e)
    {
      WalkPrefix(w, Vpn(va), vpn, w.root(asid), 2);
      if b != asid {
        assert Walk(w, vpn, w.root(asid), 2).pte.g;
      }
    }
  }

  lemma MatchIsSameKey(e: Entry, r: Entry)
    ensures MatchesRefill(e, r) <==> e.valid && KeyOf(e) == KeyOf(r)
  {
  }

  lemma RefillKeepsOk(w: World, c: Contents, r: Entry)
    requires c.Shaped() && AllOk(w, c.entries) && EntryOk(w, r)
    ensures AllOk(w, Refilled(c, r).entries)
  {
    hide EntryOk;
    forall e | e in Refilled(c, r).entries
      ensures EntryOk(w, e)
    {
      if e != r {
        assert e in c.entries;
      }
    }
  }

  lemma RefillKeepsKeys(c: Contents, r: Entry)
    requires c.Shaped() && KeysApart(c.entries) && r.valid
    ensures KeysApart(Refilled(c, r).entries)
  {
    hide KeyOf, MatchesRefill;
    var s := Refilled(c, r).entries;
    forall j | 0 <= j < |c.entries| && c.entries[j].valid && s[j] == c.entries[j] && s[j] != r
      ensures KeyOf(c.entries[j]) != KeyOf(r)
    {
      MatchIsSameKey(c.entries[j], r);
      var i := FirstMatch(c.entries, r);
      if i < |c.entries| {
        MatchIsSameKey(c.entries[i], r);
        assert i != j;
        assert if i < j then KeyOf(c.entries[i]) != KeyOf(c.entries[j]) else KeyOf(c.entries[j]) != KeyOf(c.entries[i]);
      }
    }
    var k := if Inserts(c, r) then c.replace else FirstMatch(c.entries, r);
    forall i, j | 0 <= i < j < |s| && s[i].valid && s[j].valid
      ensures KeyOf(s[i]) != KeyOf(s[j])
    {
      if i == k && s[j] == r { SameKeyTwice(c, r, j); }
      if j == k && s[i] == r { SameKeyTwice(c, r, i); }
    }
  }

  /** A refill entry that is already present is overwritten where it is. */
  lemma SameKeyTwice(c: Contents, r: Entry, j: nat)
    requires c.Shaped() && KeysApart(c.entries) && r.valid && j < |c.entries| && c.entries[j] == r
    ensures FirstMatch(c.entries, r) == j
  {
    hide KeyOf, MatchesRefill;
    MatchIsSameKey(r, r);
    var i := FirstMatch(c.entries, r);
    MatchIsSameKey(c.entries[i], r);
  }

  // ---- survival ----

  function RefilledAll(c: Contents, rs: seq<Entry>): (c': Contents)
    requires c.Shaped()
    ensures c'.Shaped() && |c'.entries| == |c.entries|
    decreases |rs|
  {
    if rs == [] then c else RefilledAll(Refilled(c, rs[0]), rs[1..])
  }

  /** How many refills of a run take a new slot. */
  function Insertions(c: Contents, rs: seq<Entry>): nat
    requires c.Shaped()
    decreases |rs|
  {
    if rs == [] then 0 else (if Inserts(c, rs[0]) then 1 else 0) + Insertions(Refilled(c, rs[0]), rs[1..])
  }

  /** Insertions until the slot's turn comes. */
  function TurnsUntil(c: Contents, slot: nat): nat
    requires c.Shaped() && slot < |c.entries|
  {
    if slot < c.replace then slot + |c.entries| - c.replace else slot - c.replace
  }

  /** A slot keeps its key as long as no more insertions happen than remain before its turn. */
  lemma {:induction false} SlotSurvives(c: Contents, rs: seq<Entry>, slot: nat)
    requires c.Shaped() && slot < |c.entries| && c.entries[slot].valid
    requires forall r :: r in rs ==> r.valid
    requires Insertions(c, rs) <= TurnsUntil(c, slot)
    ensures RefilledAll(c, rs).entries[slot].valid
    ensures KeyOf(RefilledAll(c, rs).entries[slot]) == KeyOf(c.entries[slot])
    decreases |rs|
  {
    hide KeyOf, MatchesRefill;
    if rs != [] {
      MatchIsSameKey(c.entries[slot], rs[0]);
      var c' := Refilled(c, rs[0]);
      assert c'.entries[slot].valid && KeyOf(c'.entries[slot]) == KeyOf(c.entries[slot]);
      SlotSurvives(c', rs[1..], slot);
    }
  }

  /** A newly inserted mapping survives the next ENTRY_COUNT - 1 insertions, and the one after evicts it. */
  lemma InsertedSurvives(c: Contents, r: Entry, rs: seq<Entry>)
    requires c.Shaped() && Inserts(c, r) && r.valid
    requires forall s :: s in rs ==> s.valid
    requires Insertions(Refilled(c, r), rs) < |c.entries|
    ensures var e := RefilledAll(Refilled(c, r), rs).entries[c.replace]; e.valid && KeyOf(e) == KeyOf(r)
    ensures Insertions(Refilled(c, r), rs) == |c.entries| - 1 ==> RefilledAll(Refilled(c, r), rs).replace == c.replace
  {
    hide KeyOf, MatchesRefill;
    SlotSurvives(Refilled(c, r), rs, c.replace);
    TurnsCountDown(Refilled(c, r), rs, c.replace);
  }

  /** Each insertion brings a slot's turn one closer. */
  lemma {:induction false} TurnsCountDown(c: Contents, rs: seq<Entry>, slot: nat)
    requires c.Shaped() && slot < |c.entries|
    requires Insertions(c, rs) <= TurnsUntil(c, slot)
    ensures TurnsUntil(RefilledAll(c, rs), slot) == TurnsUntil(c, slot) - Insertions(c, rs)
    decreases |rs|
  {
    if rs != [] {
      TurnsCountDown(Refilled(c, rs[0]), rs[1..], slot);
    }
  }
}

/** The buffer as registers, one entry per slot. */
module TlbUnit {
  import opened Eei
  import opened Sv39Spec
  import opened TlbEntries

  class Tlb {
    const entries: array<Entry>
    var replaceIndex: nat

    ghost function View(): Contents
      reads this, entries
    {
      Contents(entries[..], replaceIndex)
    }

    ghost predicate Valid(w: World)
      reads this, entries
    {
      View().Shaped() && AllOk(w, entries[..]) && KeysApart(entries[..])
    }

    constructor (entryCount: nat, ghost w: World)
      requires 0 < entryCount
      ensures Valid(w) && fresh(entries) && entries.Length == entryCount
    {
      entries := new Entry[entryCount](_ => EMPTY);
      replaceIndex := 0;
    }

    /** The first matching entry answers; its answer is the direct translation iff the address is canonical. */
    method Lookup(q: Access, satp: Satp, ghost w: World) returns (hit: bool, t: Translation)
      requires Valid(w) && NeedsWalk(q, satp) && InSpace(w, q, satp)
      ensures hit <==> exists e :: e in entries[..] && MatchesLookup(e, Vpn(q.va), satp.asid)
      ensures hit ==> (Agree(t, Translate(w, q, satp)) <==> Canonical(q.va))
    {
      hide EntryOk, KeysApart, Translate, Vpn, Canonical, Answer, MatchesLookup;
      hit, t := false, Translation(0, false, NONE, NoCause, q.va);
      var matched := EMPTY;
      for i := 0 to entries.Length
        invariant hit ==> matched in entries[..i] && MatchesLookup(matched, Vpn(q.va), satp.asid)
        invariant !hit ==> forall e :: e in entries[..i] ==> !MatchesLookup(e, Vpn(q.va), satp.asid)
      {
        if !hit && MatchesLookup(entries[i], Vpn(q.va), satp.asid) {
          hit, matched := true, entries[i];
        }
        assert entries[..i + 1] == entries[..i] + [entries[i]];
      }
      assert entries[..entries.Length] == entries[..];
      if hit {
        t := Answer(matched, q);
        HitIsWalk(w, matched, q, satp);
      }
    }

    /** The slot a refill goes to: the entry it replaces, or the next in turn. */
    method RefillSlot(r: Entry) returns (same: bool, index: nat)
      requires View().Shaped()
      ensures same <==> !Inserts(View(), r)
      ensures index == if same then FirstMatch(entries[..], r) else replaceIndex
    {
      hide MatchesRefill;
      same, index := false, replaceIndex;
      for i := 0 to entries.Length
        invariant same ==> index < i && MatchesRefill(entries[index], r)
        invariant same ==> forall j :: 0 <= j < index ==> !MatchesRefill(entries[j], r)
        invariant !same ==> index == replaceIndex && forall j :: 0 <= j < i ==> !MatchesRefill(entries[j], r)
      {
        if !same && MatchesRefill(entries[i], r) {
          same, index := true, i;
        }
      }
      ghost var first := FirstMatch(entries[..], r);
      assert first < entries.Length ==> MatchesRefill(entries[first], r);
      assert same ==> MatchesRefill(entries[..][index], r);
    }

    /** One edge. What the entries claim stays true of the world after the edge. */
    method Clock(flush: bool, refill: bool, r: Entry, ghost w: World, ghost w': World)
      requires Valid(w) && (w' != w ==> flush) && (refill && !flush ==> r.valid && EntryOk(w, r))
      modifies this`replaceIndex, entries
      ensures Valid(w')
      ensures View() == if flush then Flushed(old(View())) else if refill then Refilled(old(View()), r) else old(View())
    {
      hide EntryOk, KeysApart, FirstMatch;
      ghost var c := View();
      if flush {
        for i := 0 to entries.Length
          invariant forall j :: 0 <= j < i ==> entries[j] == c.entries[j].(valid := false)
          invariant forall j :: i <= j < entries.Length ==> entries[j] == c.entries[j]
        {
          entries[i] := entries[i].(valid := false);
        }
        replaceIndex := 0;
        assert View() == Flushed(c);
        AllInvalid(w', View().entries);
      } else if refill {
        var same, index := RefillSlot(r);
        entries[index] := r;
        if !same {
          replaceIndex := if replaceIndex == entries.Length - 1 then 0 else replaceIndex + 1;
        }
        RefillKeepsOk(w, c, r);
        RefillKeepsKeys(c, r);
        assert View() == Refilled(c, r);
      }
    }
  }

  lemma AllInvalid(w: World, s: seq<Entry>)
    requires forall e :: e in s ==> !e.valid
    ensures AllOk(w, s) && KeysApart(s)
  {
  }
}
