// A bin of small regions (3rd/jemalloc/src/arena.c). Each method is one region of code
// under the bin's lock; where the code drops the lock, one method ends and another begins.

module ArenaBin {
  import opened Common
  import opened Division

  type SlabId = nat

  // `bits[i]` says that region i is in use.
  datatype Slab = Slab(base: nat, sn: nat, nfree: nat, bits: seq<bool>)

  function CountFree(bits: seq<bool>): nat {
    if bits == [] then 0 else (if bits[0] then 0 else 1) + CountFree(bits[1..])
  }

  lemma {:induction false} CountFreeUpdate(bits: seq<bool>, i: nat, b: bool)
    requires i < |bits|
    ensures CountFree(bits[i := b]) + (if bits[i] then 0 else 1) == CountFree(bits) + (if b then 0 else 1)
  {
    if i == 0 {
      assert bits[i := b][1..] == bits[1..];
    } else {
      CountFreeUpdate(bits[1..], i - 1, b);
      assert bits[i := b][1..] == bits[1..][i - 1 := b];
    }
  }

  lemma {:induction false} CountFreeBounds(bits: seq<bool>)
    ensures CountFree(bits) <= |bits|
    ensures CountFree(bits) == |bits| <==> forall i :: 0 <= i < |bits| ==> !bits[i]
  {
    if bits != [] {
      CountFreeBounds(bits[1..]);
      assert forall i :: 0 < i < |bits| ==> bits[i] == bits[1..][i - 1];
      assert forall i :: 0 <= i < |bits| - 1 ==> bits[1..][i] == bits[i + 1];
    }
  }

  // The first region that is not in use.
  function FirstFree(bits: seq<bool>): (i: nat)
    requires CountFree(bits) > 0
    ensures i < |bits| && !bits[i] && forall j :: 0 <= j < i ==> bits[j]
  {
    if !bits[0] then 0 else 1 + FirstFree(bits[1..])
  }

  predicate SlabOk(s: Slab, nregs: nat) {
    |s.bits| == nregs && s.nfree == CountFree(s.bits)
  }

  // Older serial numbers, then lower addresses, come first.
  predicate After(s: Slab, t: Slab) {
    s.sn > t.sn || (s.sn == t.sn && s.base > t.base)
  }

  lemma {:induction false} SomeOldest(slabs: map<SlabId, Slab>, heap: set<SlabId>) returns (s: SlabId)
    requires heap != {} && forall t :: t in heap ==> t in slabs
    ensures s in heap && forall t :: t in heap ==> !After(slabs[s], slabs[t])
    decreases |heap|
  {
    s :| s in heap;
    var rest := heap - {s};
    if rest != {} {
      var q: SlabId := SomeOldest(slabs, rest);
      s := if After(slabs[s], slabs[q]) then q else s;
      forall t | t in heap ensures !After(slabs[s], slabs[t]) {
        assert t in rest ==> !After(slabs[q], slabs[t]);
      }
    } else {
      assert heap == {s};
    }
  }

  function Take(s: Slab, i: nat): Slab
    requires i < |s.bits| && 0 < s.nfree
  {
    s.(nfree := s.nfree - 1, bits := s.bits[i := true])
  }

  function Give(s: Slab, i: nat): Slab
    requires i < |s.bits|
  {
    s.(nfree := s.nfree + 1, bits := s.bits[i := false])
  }

  type Region = (SlabId, nat)

  // The regions in use.
  ghost predicate InUse(slabs: map<SlabId, Slab>, s: SlabId, i: nat) {
    s in slabs && i < |slabs[s].bits| && slabs[s].bits[i]
  }

  ghost function Live(slabs: map<SlabId, Slab>): iset<Region> {
    iset r: Region | InUse(slabs, r.0, r.1)
  }

  ghost predicate SlabsOk(slabs: map<SlabId, Slab>, nregs: nat) {
    forall s :: s in slabs ==> SlabOk(slabs[s], nregs)
  }

  lemma TakeIs(slabs: map<SlabId, Slab>, s: SlabId, i: nat, nregs: nat)
    requires SlabsOk(slabs, nregs) && s in slabs && i < nregs && !slabs[s].bits[i] && 0 < slabs[s].nfree
    ensures SlabsOk(slabs[s := Take(slabs[s], i)], nregs)
    ensures (s, i) !in Live(slabs) && Live(slabs[s := Take(slabs[s], i)]) == Live(slabs) + iset{(s, i)}
  {
    CountFreeUpdate(slabs[s].bits, i, true);
    var slabs' := slabs[s := Take(slabs[s], i)];
    forall r: Region ensures InUse(slabs', r.0, r.1) <==> InUse(slabs, r.0, r.1) || r == (s, i) {
    }
  }

  lemma GiveIs(slabs: map<SlabId, Slab>, s: SlabId, i: nat, nregs: nat)
    requires SlabsOk(slabs, nregs) && s in slabs && i < nregs && slabs[s].bits[i]
    ensures slabs[s].nfree < nregs && SlabsOk(slabs[s := Give(slabs[s], i)], nregs)
    ensures (s, i) in Live(slabs) && Live(slabs[s := Give(slabs[s], i)]) == Live(slabs) - iset{(s, i)}
  {
    CountFreeBounds(slabs[s].bits);
    CountFreeUpdate(slabs[s].bits, i, false);
    var slabs' := slabs[s := Give(slabs[s], i)];
    forall r: Region ensures InUse(slabs', r.0, r.1) <==> InUse(slabs, r.0, r.1) && r != (s, i) {
    }
  }

  // A slab without regions in use can come and go.
  lemma EmptySlab(slabs: map<SlabId, Slab>, s: SlabId, nregs: nat)
    requires SlabsOk(slabs, nregs) && s in slabs && slabs[s].nfree == nregs
    ensures Live(slabs - {s}) == Live(slabs) && SlabsOk(slabs - {s}, nregs)
  {
    CountFreeBounds(slabs[s].bits);
    forall r: Region ensures InUse(slabs - {s}, r.0, r.1) <==> InUse(slabs, r.0, r.1) {
    }
  }

  lemma FreshSlab(slabs: map<SlabId, Slab>, s: SlabId, slab: Slab, nregs: nat)
    requires SlabsOk(slabs, nregs) && s !in slabs && slab.bits == seq(nregs, _ => false) && slab.nfree == nregs
    ensures SlabsOk(slabs[s := slab], nregs) && Live(slabs[s := slab]) == Live(slabs)
  {
    CountFreeBounds(slab.bits);
    forall r: Region ensures InUse(slabs[s := slab], r.0, r.1) <==> InUse(slabs, r.0, r.1) {
    }
  }

  // Where the slabs are, but for those in hand: the current one, the heap of those with
  // regions free, and the list of full ones, which automatic arenas do without.
  datatype Places = Places(slabcur: Option<SlabId>, nonfull: set<SlabId>, full: seq<SlabId>)

  predicate Elsewhere(slabs: map<SlabId, Slab>, p: Places, hand: set<SlabId>, s: SlabId) {
    s in slabs && Some(s) != p.slabcur && s !in hand
  }

  ghost predicate Placed(slabs: map<SlabId, Slab>, p: Places, hand: set<SlabId>, auto_: bool) {
    && (p.slabcur.Some? ==> p.slabcur.value in slabs && p.slabcur.value !in hand)
    && Distinct(p.full)
    && (forall s :: s in p.nonfull <==> Elsewhere(slabs, p, hand, s) && slabs[s].nfree > 0)
    && (forall s :: s in p.full <==> !auto_ && Elsewhere(slabs, p, hand, s) && slabs[s].nfree == 0)
  }

  // The current slab may lose regions without moving.
  lemma CurrentChanges(slabs: map<SlabId, Slab>, p: Places, hand: set<SlabId>, auto_: bool, slab: Slab)
    requires Placed(slabs, p, hand, auto_) && p.slabcur.Some?
    ensures Placed(slabs[p.slabcur.value := slab], p, hand, auto_)
  {
    var slabs' := slabs[p.slabcur.value := slab];
    forall s ensures Elsewhere(slabs', p, hand, s) <==> Elsewhere(slabs, p, hand, s) {
    }
  }

  lemma BecomesCurrent(slabs: map<SlabId, Slab>, p: Places, s: SlabId, auto_: bool)
    requires Placed(slabs, p, {s}, auto_) && p.slabcur.None? && s in slabs
    ensures Placed(slabs, p.(slabcur := Some(s)), {}, auto_)
  {
    hide Distinct;
    assert forall t :: Elsewhere(slabs, p.(slabcur := Some(s)), {}, t) <==> Elsewhere(slabs, p, {s}, t);
  }

  lemma Arrives(slabs: map<SlabId, Slab>, p: Places, s: SlabId, slab: Slab, auto_: bool)
    requires Placed(slabs, p, {}, auto_) && s !in slabs
    ensures Placed(slabs[s := slab], p, {s}, auto_)
  {
    hide Distinct;
    assert forall t :: Elsewhere(slabs[s := slab], p, {s}, t) <==> Elsewhere(slabs, p, {}, t);
  }

  // A slab with free regions, or the current one, need not move when one more is freed.
  lemma StaysPut(slabs: map<SlabId, Slab>, p: Places, s: SlabId, before: Slab, auto_: bool)
    requires s in slabs && Placed(slabs[s := before], p, {}, auto_)
    requires p.slabcur == Some(s) || (before.nfree > 0 && slabs[s].nfree > 0)
    ensures Placed(slabs, p, {}, auto_)
  {
    hide Distinct;
    assert forall t :: Elsewhere(slabs, p, {}, t) <==> Elsewhere(slabs[s := before], p, {}, t);
  }

  class Bin {
    const auto_: bool
    const nregs: nat
    const div: DivInfo
    var slabs: map<SlabId, Slab>
    var places: Places

    ghost predicate Sane()
      reads this
    {
      0 < nregs && div.Valid() && div.d * nregs < TWO_TO_K && SlabsOk(slabs, nregs)
    }

    // Holds whenever the lock is free: every slab is in its place, none is empty.
    ghost predicate Valid()
      reads this
    {
      Sane() && Placed(slabs, places, {}, auto_) && forall s :: s in slabs ==> slabs[s].nfree < nregs
    }

    constructor (auto_: bool, nregs: nat, regSize: nat)
      requires 0 < nregs && 2 <= regSize && regSize * nregs < TWO_TO_K
      ensures Valid() && slabs == map[] && this.auto_ == auto_ && this.nregs == nregs && div.d == regSize
    {
      this.auto_, this.nregs := auto_, nregs;
      div := new DivInfo(regSize);
      slabs, places := map[], Places(None, {}, []);
    }

    // Hands out the lowest free region of the current slab.
    method RegAlloc() returns (ptr: nat, ghost at: Region)
      requires Sane() && places.slabcur.Some? && places.slabcur.value in slabs
      requires slabs[places.slabcur.value].nfree > 0
      modifies `slabs
      ensures Sane() && at.0 == places.slabcur.value && at.1 < nregs
      ensures at.1 < |old(slabs[at.0]).bits| && slabs == old(slabs)[at.0 := Take(old(slabs[at.0]), at.1)]
      ensures slabs[at.0].nfree < nregs
      ensures at !in Live(old(slabs)) && Live(slabs) == Live(old(slabs)) + iset{at}
      ensures ptr == slabs[at.0].base + div.d * at.1 && forall j :: 0 <= j < at.1 ==> old(slabs[at.0].bits[j])
    {
      var s := places.slabcur.value;
      var slab := slabs[s];
      var regind := FirstFree(slab.bits);
      TakeIs(slabs, s, regind, nregs);
      at := (s, regind);
      ptr := slab.base + div.d * regind;
      slabs := slabs[s := slab.(nfree := slab.nfree - 1, bits := slab.bits[regind := true])];
      CountFreeBounds(slabs[s].bits);
      assert slabs[s].bits[regind];
    }

    // The region an address belongs to, by multiplication.
    method Regind(s: SlabId, ptr: nat, ghost i: nat) returns (regind: nat)
      requires Sane() && s in slabs && i < nregs && ptr == slabs[s].base + div.d * i
      ensures regind == i
    {
      var diff := ptr - slabs[s].base;
      BelowSlab(i);
      regind := div.Compute(diff);
      MultipleIsExact(i, div.d, div.magic);
    }

    lemma BelowSlab(i: nat)
      requires i < nregs && div.d * nregs < TWO_TO_K
      ensures i * div.d == div.d * i < TWO_TO_K
    {
    }

    // The current slab is full: it leaves its place, for the list unless the arena is
    // automatic.
    method RetireCurrent(ghost hand: set<SlabId>)
      requires Sane() && Placed(slabs, places, hand, auto_)
      requires places.slabcur.Some? && slabs[places.slabcur.value].nfree == 0
      modifies `places
      ensures Placed(slabs, places, hand, auto_) && places.slabcur.None?
      ensures places.nonfull == old(places.nonfull)
    {
      var s := places.slabcur.value;
      ghost var p := places;
      assert s !in p.full;
      places := places.(slabcur := None, full := if auto_ then places.full else places.full + [s]);
      assert !auto_ ==> forall t :: t in places.full <==> t in p.full || t == s;
      assert forall t :: Elsewhere(slabs, places, hand, t) <==> Elsewhere(slabs, p, hand, t) || t == s;
    }

    // Takes the oldest slab with free regions out of the heap.
    method TryGet() returns (r: Option<SlabId>)
      requires Sane() && Placed(slabs, places, {}, auto_)
      modifies `places
      ensures r.None? ==> places == old(places) && places.nonfull == {}
      ensures r.Some? ==> r.value in slabs && slabs[r.value].nfree > 0 && Placed(slabs, places, {r.value}, auto_)
      ensures r.Some? ==> places == old(places).(nonfull := old(places.nonfull) - {r.value})
      ensures r.Some? ==> forall t :: t in places.nonfull ==> t in slabs && !After(slabs[r.value], slabs[t])
    {
      if places.nonfull == {} {
        return None;
      }
      ghost var w := SomeOldest(slabs, places.nonfull);
      var s :| s in places.nonfull && forall t :: t in places.nonfull ==> !After(slabs[s], slabs[t]);
      ghost var p := places;
      places := places.(nonfull := places.nonfull - {s});
      assert forall t :: Elsewhere(slabs, places, {s}, t) <==> Elsewhere(slabs, p, {}, t) && t != s;
      r := Some(s);
    }

    // The slab in hand becomes the current one if that comes after it.
    method LowerSlab(s: SlabId)
      requires Sane() && s in slabs && slabs[s].nfree > 0 && Placed(slabs, places, {s}, auto_)
      modifies `places
      ensures Placed(slabs, places, {}, auto_)
      ensures places.slabcur == if old(places.slabcur.Some?) && After(slabs[old(places.slabcur.value)], slabs[s])
                                then Some(s) else old(places.slabcur)
    {
      ghost var p := places;
      if places.slabcur.Some? && After(slabs[places.slabcur.value], slabs[s]) {
        var c := places.slabcur.value;
        if slabs[c].nfree > 0 {
          places := places.(slabcur := None, nonfull := places.nonfull + {c});
          assert forall t :: Elsewhere(slabs, places, {s}, t) <==> Elsewhere(slabs, p, {s}, t) || t == c;
        } else {
          RetireCurrent({s});
        }
        ghost var m := places;
        places := places.(slabcur := Some(s));
        assert forall t :: Elsewhere(slabs, places, {}, t) <==> Elsewhere(slabs, m, {s}, t);
      } else {
        places := places.(nonfull := places.nonfull + {s});
        assert forall t :: Elsewhere(slabs, places, {}, t) <==> Elsewhere(slabs, p, {s}, t) || t == s;
      }
    }

    // Gives an empty slab in hand back to the arena.
    method SlabDalloc(s: SlabId)
      requires Sane() && s in slabs && slabs[s].nfree == nregs && Placed(slabs, places, {s}, auto_)
      modifies `slabs
      ensures Sane() && Placed(slabs, places, {}, auto_) && slabs == old(slabs) - {s}
      ensures Live(slabs) == Live(old(slabs))
    {
      EmptySlab(slabs, s, nregs);
      ghost var before := slabs;
      slabs := slabs - {s};
      assert forall t :: Elsewhere(slabs, places, {}, t) <==> Elsewhere(before, places, {s}, t);
    }

    ghost predicate CurrentHasFree()
      reads this
    {
      places.slabcur.Some? && places.slabcur.value in slabs && slabs[places.slabcur.value].nfree > 0
    }

    // The bin with one slab in hand, or none; all slabs but a fresh one are partly in use.
    ghost predicate Holding(slab: Option<SlabId>)
      reads this
    {
      && Sane() && Placed(slabs, places, if slab.Some? then {slab.value} else {}, auto_)
      && (slab.Some? ==> slab.value in slabs && slabs[slab.value].nfree > 0)
      && (forall s :: s in slabs && Some(s) != slab ==> slabs[s].nfree < nregs)
    }

    // The region handed out was not in use; nothing else changes. A slab that is not
    // needed any more goes back to the heap, or to the arena if it is still empty.
    method UseSlab(slab: Option<SlabId>) returns (ptr: Option<nat>, ghost at: Region)
      requires Holding(slab)
      requires slab.None? ==> places.nonfull == {}
      modifies this
      ensures Valid() && HandedOut(old(slabs), ptr, at) && (slab.Some? ==> ptr.Some?)
      ensures ptr.Some? ==> Some(at.0) == if old(CurrentHasFree()) then old(places.slabcur) else slab
    {
      hide Live, InUse, Distinct, SlabsOk, Take;
      at := (0, 0);
      if places.slabcur.Some? {
        if slabs[places.slabcur.value].nfree > 0 {
          ptr, at := AllocCurrent(slab);
          return;
        }
        RetireCurrent(if slab.Some? then {slab.value} else {});
      }
      if slab.None? {
        assert forall s :: s in slabs ==> Elsewhere(slabs, places, {}, s);
        return None, at;
      }
      BecomesCurrent(slabs, places, slab.value, auto_);
      places := places.(slabcur := slab);
      ptr, at := AllocCurrent(None);
    }

    // A region in use that was not before; or no slab has a region free.
    ghost predicate HandedOut(slabs0: map<SlabId, Slab>, ptr: Option<nat>, at: Region)
      reads this
    {
      if ptr.None? then Live(slabs) == Live(slabs0) && forall s :: s in slabs ==> slabs[s].nfree == 0
      else
        && at !in Live(slabs0) && Live(slabs) == Live(slabs0) + iset{at}
        && at.0 in slabs && at.1 < nregs && ptr.value == slabs[at.0].base + div.d * at.1
    }

    method AllocCurrent(slab: Option<SlabId>) returns (ptr: Option<nat>, ghost at: Region)
      requires Sane() && Placed(slabs, places, if slab.Some? then {slab.value} else {}, auto_)
      requires slab.Some? ==> slab.value in slabs && slabs[slab.value].nfree > 0 && slab != places.slabcur
      requires places.slabcur.Some? && places.slabcur.value in slabs && slabs[places.slabcur.value].nfree > 0
      requires forall s :: s in slabs && Some(s) != slab && Some(s) != places.slabcur ==> slabs[s].nfree < nregs
      modifies this
      ensures Valid() && HandedOut(old(slabs), ptr, at) && ptr.Some? && Some(at.0) == old(places.slabcur)
    {
      hide Live, InUse, Placed, SlabsOk, Take;
      ghost var before := slabs;
      var q;
      q, at := RegAlloc();
      CurrentChanges(before, places, if slab.Some? then {slab.value} else {}, auto_, slabs[at.0]);
      if slab.Some? {
        NoMoreThanAll(slab.value);
        if slabs[slab.value].nfree == nregs {
          SlabDalloc(slab.value);
        } else {
          LowerSlab(slab.value);
        }
      }
      ptr := Some(q);
    }

    lemma NoMoreThanAll(s: SlabId)
      requires Sane() && s in slabs
      ensures slabs[s].nfree <= nregs
    {
      CountFreeBounds(slabs[s].bits);
    }

    // The first region of code of an allocation. Without a slab that has a region free the
    // lock is dropped to get one.
    method Malloc() returns (needSlab: bool, ptr: Option<nat>, ghost at: Region)
      requires Valid()
      modifies this
      ensures Valid()
      ensures needSlab ==> slabs == old(slabs) && forall s :: s in slabs ==> slabs[s].nfree == 0
      ensures !needSlab ==> ptr.Some? && HandedOut(old(slabs), ptr, at)
      ensures old(CurrentHasFree()) ==> !needSlab && Some(at.0) == old(places.slabcur)
    {
      needSlab, at := false, (0, 0);
      if places.slabcur.Some? && slabs[places.slabcur.value].nfree > 0 {
        ptr, at := AllocCurrent(None);
        return;
      }
      if !auto_ && places.slabcur.Some? {
        RetireCurrent({});
      }
      var slab := TryGet();
      if slab.None? {
        assert forall s :: s in slabs ==> Some(s) == places.slabcur || Elsewhere(slabs, places, {}, s);
        return true, None, at;
      }
      ptr, at := UseSlab(slab);
    }

    // The second region of code: the slab allocated meanwhile, or none. Other threads may
    // have changed the bin in any way that its invariant allows.
    method SlabReady(fresh_: Option<(SlabId, nat, nat)>) returns (ptr: Option<nat>, ghost at: Region)
      requires Valid() && (fresh_.Some? ==> fresh_.value.0 !in slabs)
      modifies this
      ensures Valid() && HandedOut(old(slabs), ptr, at)
      ensures fresh_.Some? ==> ptr.Some?
    {
      hide Live, InUse, Distinct, SlabsOk;
      if fresh_.None? {
        var again := TryGet();
        ptr, at := UseSlab(again);
        return;
      }
      var s := fresh_.value.0;
      var slab := Slab(fresh_.value.1, fresh_.value.2, nregs, seq(nregs, _ => false));
      FreshSlab(slabs, s, slab, nregs);
      Arrives(slabs, places, s, slab, auto_);
      slabs := slabs[s := slab];
      ptr, at := UseSlab(Some(s));
    }

    // Takes a slab out of the list of full ones. `before` is its value when it was put there.
    method SlabsFullRemove(s: SlabId, ghost before: Slab)
      requires Sane() && s in slabs && Some(s) != places.slabcur && before.nfree == 0
      requires Placed(slabs[s := before], places, {}, auto_)
      modifies `places
      ensures Placed(slabs, places, {s}, auto_) && places.slabcur == old(places.slabcur)
    {
      ghost var p, m := places, slabs[s := before];
      WithoutIs(places.full, s);
      places := places.(full := if auto_ then places.full else Without(places.full, s));
      hide Distinct;
      assert forall t :: Elsewhere(slabs, places, {s}, t) <==> Elsewhere(m, p, {}, t) && t != s;
    }

    method SlabsNonfullRemove(s: SlabId, ghost before: Slab)
      requires Sane() && s in slabs && Some(s) != places.slabcur && before.nfree > 0
      requires Placed(slabs[s := before], places, {}, auto_)
      modifies `places
      ensures Placed(slabs, places, {s}, auto_) && places.slabcur == old(places.slabcur)
    {
      ghost var p, m := places, slabs[s := before];
      places := places.(nonfull := places.nonfull - {s});
      hide Distinct;
      assert forall t :: Elsewhere(slabs, places, {s}, t) <==> Elsewhere(m, p, {}, t) && t != s;
    }

    // An empty slab leaves its place. If it has one region only, it was in the list of
    // full slabs and never in the heap.
    method Dissociate(s: SlabId, ghost before: Slab)
      requires Sane() && s in slabs && before.nfree == nregs - 1
      requires Placed(slabs[s := before], places, {}, auto_)
      modifies `places
      ensures Placed(slabs, places, {s}, auto_)
    {
      if places.slabcur == Some(s) {
        ghost var p, m := places, slabs[s := before];
        places := places.(slabcur := None);
        hide Distinct;
        assert forall t :: Elsewhere(slabs, places, {s}, t) <==> Elsewhere(m, p, {}, t);
      } else if nregs == 1 {
        SlabsFullRemove(s, before);
      } else {
        SlabsNonfullRemove(s, before);
      }
    }

    // Takes back region i of slab s, which is in use.
    method Dalloc(s: SlabId, ptr: nat, ghost i: nat)
      requires Valid() && InUse(slabs, s, i) && ptr == slabs[s].base + div.d * i
      modifies this
      ensures Valid() && Live(slabs) == Live(old(slabs)) - iset{(s, i)}
      ensures slabs.Keys == old(slabs.Keys) - (if old(slabs[s].nfree) == nregs - 1 then {s} else {})
    {
      var regind := Regind(s, ptr, i);
      ghost var before := slabs[s];
      GiveIs(slabs, s, regind, nregs);
      hide Live, InUse, SlabsOk, Placed;
      var slab := slabs[s];
      assert slabs[s := Give(slab, regind)][s := before] == slabs;
      slabs := slabs[s := slab.(nfree := slab.nfree + 1, bits := slab.bits[regind := false])];
      var nfree := slabs[s].nfree;
      if nfree == nregs {
        Dissociate(s, before);
        SlabDalloc(s);
      } else if nfree == 1 && places.slabcur != Some(s) {
        SlabsFullRemove(s, before);
        LowerSlab(s);
      } else {
        StaysPut(slabs, places, s, before, auto_);
      }
    }
  }
}
