/** The property layout of one hidden class: an array of slots in insertion order with
    tombstones for deleted properties, and a hash index from key to slot. */
module ShapeLayout {

  /** A property key: an interned string (by its address) or a symbol (by its offset). */
  datatype Key = Str(atom: nat) | Sym(off: nat)

  datatype Slot = Deleted | Live(key: Key, attrs: nat)

  datatype Layout = Layout(props: seq<Slot>, index: map<Key, nat>, deleted: nat)

  /** SHAPE_COMPACT_MIN_TOMBSTONES */
  const COMPACT_MIN_TOMBSTONES: nat := 32

  /** The index holds exactly the live slots. */
  ghost predicate Indexed(props: seq<Slot>, index: map<Key, nat>) {
    && (forall k <- index :: index[k] < |props| && props[index[k]].Live? && props[index[k]].key == k)
    && (forall i | 0 <= i < |props| && props[i].Live? :: props[i].key in index && index[props[i].key] == i)
  }

  function Tombstones(props: seq<Slot>): nat {
    if props == [] then 0
    else Tombstones(props[..|props| - 1]) + if props[|props| - 1].Deleted? then 1 else 0
  }

  ghost predicate WellFormed(l: Layout) {
    && Indexed(l.props, l.index)
    && l.deleted == Tombstones(l.props)
    && (l.props != [] ==> l.props[|l.props| - 1].Live?)
  }

  const EMPTY: Layout := Layout([], map[], 0)

  // ---------------------------------------------------------------- the ordered map

  /** The live properties in slot order: what property enumeration shows. */
  function LiveProps(props: seq<Slot>): seq<Slot> {
    if props == [] then []
    else
      var last := props[|props| - 1];
      if last.Live? then LiveProps(props[..|props| - 1]) + [last] else LiveProps(props[..|props| - 1])
  }

  ghost predicate Has(list: seq<Slot>, k: Key) {
    exists x <- list :: x.Live? && x.key == k
  }

  /** Change the attributes of `k` where it stands. */
  function SetIn(list: seq<Slot>, k: Key, a: nat): (r: seq<Slot>)
    ensures |r| == |list|
  {
    if list == [] then []
    else
      var last := list[|list| - 1];
      SetIn(list[..|list| - 1], k, a) + [if last.Live? && last.key == k then Live(k, a) else last]
  }

  function Without(list: seq<Slot>, k: Key): seq<Slot> {
    if list == [] then []
    else
      var last := list[|list| - 1];
      if last.Live? && last.key == k then Without(list[..|list| - 1], k)
      else Without(list[..|list| - 1], k) + [last]
  }

  /** Insertion-ordered map update: an existing key keeps its place, a new key goes last. */
  ghost function Put(list: seq<Slot>, k: Key, a: nat): seq<Slot> {
    if Has(list, k) then SetIn(list, k, a) else list + [Live(k, a)]
  }

  // ---------------------------------------------------------------- facts about slots

  lemma {:induction false} LiveCount(props: seq<Slot>)
    ensures |LiveProps(props)| + Tombstones(props) == |props|
  {
    if props != [] { LiveCount(props[..|props| - 1]); }
  }

  lemma {:induction false} LiveMember(props: seq<Slot>, i: nat)
    requires i < |props| && props[i].Live?
    ensures props[i] in LiveProps(props)
  {
    if i < |props| - 1 { LiveMember(props[..|props| - 1], i); }
  }

  lemma {:induction false} LiveFromProps(props: seq<Slot>)
    ensures forall x <- LiveProps(props) :: x.Live? && x in props
  {
    if props != [] { LiveFromProps(props[..|props| - 1]); }
  }

  lemma HasIndexed(l: Layout, k: Key)
    requires WellFormed(l)
    ensures Has(LiveProps(l.props), k) <==> k in l.index
  {
    LiveFromProps(l.props);
    if k in l.index { LiveMember(l.props, l.index[k]); }
  }

  ghost predicate KeyOnlyAt(props: seq<Slot>, k: Key, i: nat) {
    forall j | 0 <= j < |props| && props[j].Live? && props[j].key == k :: j == i
  }

  lemma {:induction false} SetInAbsent(list: seq<Slot>, k: Key, a: nat)
    requires forall x <- list :: x.Live? ==> x.key != k
    ensures SetIn(list, k, a) == list && Without(list, k) == list
  {
    if list != [] {
      SetInAbsent(list[..|list| - 1], k, a);
      assert list == list[..|list| - 1] + [list[|list| - 1]];
    }
  }

  lemma {:induction false} LiveAppend(a: seq<Slot>, x: Slot)
    ensures LiveProps(a + [x]) == if x.Live? then LiveProps(a) + [x] else LiveProps(a)
  {
    assert (a + [x])[..|a|] == a;
  }

  lemma SetInAppend(list: seq<Slot>, x: Slot, k: Key, a: nat)
    ensures SetIn(list + [x], k, a) == SetIn(list, k, a) + [if x.Live? && x.key == k then Live(k, a) else x]
    ensures Without(list + [x], k) == if x.Live? && x.key == k then Without(list, k) else Without(list, k) + [x]
  {
    assert (list + [x])[..|list|] == list;
  }

  /** Overwriting or tombstoning one slot is an update or a removal of the live list. */
  lemma {:induction false} LiveUpdate(props: seq<Slot>, i: nat, k: Key, a: nat)
    requires i < |props| && props[i].Live? && props[i].key == k && KeyOnlyAt(props, k, i)
    ensures LiveProps(props[i := Live(k, a)]) == SetIn(LiveProps(props), k, a)
    ensures LiveProps(props[i := Deleted]) == Without(LiveProps(props), k)
  {
    var n := |props| - 1;
    var init, last := props[..n], props[n];
    if i == n {
      assert props[i := Live(k, a)] == init + [Live(k, a)] && props[i := Deleted] == init + [Deleted];
      LiveAppend(init, Live(k, a));
      LiveAppend(init, Deleted);
      LiveFromProps(init);
      SetInAbsent(LiveProps(init), k, a);
      SetInAppend(LiveProps(init), last, k, a);
    } else {
      assert props[i := Live(k, a)] == init[i := Live(k, a)] + [last];
      assert props[i := Deleted] == init[i := Deleted] + [last];
      LiveUpdate(init, i, k, a);
      LiveAppend(init[i := Live(k, a)], last);
      LiveAppend(init[i := Deleted], last);
      if last.Live? { SetInAppend(LiveProps(init), last, k, a); }
    }
  }

  lemma {:induction false} TombstoneUpdate(props: seq<Slot>, i: nat, x: Slot)
    requires i < |props| && props[i].Live?
    ensures Tombstones(props[i := x]) == Tombstones(props) + if x.Deleted? then 1 else 0
  {
    var n := |props| - 1;
    if i < n {
      assert props[i := x][..n] == props[..n][i := x];
      TombstoneUpdate(props[..n], i, x);
    } else {
      assert props[i := x][..n] == props[..n];
    }
  }

  // ---------------------------------------------------------------- operations

  /** `shape_rebuild_index`: index every live slot. */
  function IndexOf(props: seq<Slot>): map<Key, nat> {
    if props == [] then map[]
    else
      var n := |props| - 1;
      var rest := IndexOf(props[..n]);
      if props[n].Live? then rest[props[n].key := n] else rest
  }

  ghost predicate UniqueKeys(props: seq<Slot>) {
    forall i, j | 0 <= i < j < |props| && props[i].Live? && props[j].Live? :: props[i].key != props[j].key
  }

  lemma {:induction false} IndexOfIsIndex(props: seq<Slot>)
    requires UniqueKeys(props)
    ensures Indexed(props, IndexOf(props))
  {
    if props != [] {
      IndexOfIsIndex(props[..|props| - 1]);
      assert forall j | 0 <= j < |props| - 1 :: props[..|props| - 1][j] == props[j];
    }
  }

  lemma IndexUnique(props: seq<Slot>, m: map<Key, nat>, n: map<Key, nat>)
    requires Indexed(props, m) && Indexed(props, n)
    ensures m == n
  {
    assert forall k <- m :: k in n && n[k] == m[k];
    assert forall k <- n :: k in m;
  }

  lemma IndexPositions(props: seq<Slot>, m: map<Key, nat>, n: map<Key, nat>)
    requires Indexed(props, n) && m.Keys == n.Keys
    requires forall k <- m :: m[k] < |props| && props[m[k]].Live? && props[m[k]].key == k
    ensures m == n
  {
    assert forall k <- m :: n[k] == m[k];
  }

  /** Rebuilding the index of a well-formed layout gives the index it already has. */
  lemma RebuildIsIdentity(l: Layout)
    requires WellFormed(l)
    ensures IndexOf(l.props) == l.index
  {
    IndexOfIsIndex(l.props);
    IndexUnique(l.props, IndexOf(l.props), l.index);
  }

  /** `shape_add_key`: an existing key keeps its slot and takes the new attributes, a new key
      takes the next slot. */
  function AddKey(l: Layout, k: Key, a: nat): Layout {
    if k in l.index then
      if l.index[k] < |l.props| then l.(props := l.props[l.index[k] := Live(k, a)]) else l
    else Layout(l.props + [Live(k, a)], l.index[k := |l.props|], l.deleted)
  }

  lemma AddKeyIndexed(l: Layout, k: Key, a: nat)
    requires Indexed(l.props, l.index)
    ensures Indexed(AddKey(l, k, a).props, AddKey(l, k, a).index)
  {
    var r := AddKey(l, k, a);
    forall x <- r.index ensures r.index[x] < |r.props| && r.props[r.index[x]].Live? && r.props[r.index[x]].key == x {
      if x in l.index { assert l.props[l.index[x]].key == x; }
    }
    forall i | 0 <= i < |r.props| && r.props[i].Live?
      ensures r.props[i].key in r.index && r.index[r.props[i].key] == i
    {
      if i < |l.props| { assert r.props[i].key == k || r.props[i] == l.props[i]; }
    }
  }

  lemma AddKeyWellFormed(l: Layout, k: Key, a: nat)
    requires WellFormed(l)
    ensures WellFormed(AddKey(l, k, a))
  {
    hide Indexed;
    AddKeyIndexed(l, k, a);
    assert k in l.index ==> l.index[k] < |l.props| && l.props[l.index[k]].Live? by { KeyAt(l, k); }
    if k in l.index {
      TombstoneUpdate(l.props, l.index[k], Live(k, a));
    } else {
      TombstoneAppend(l.props, Live(k, a));
    }
  }

  lemma KeyAt(l: Layout, k: Key)
    requires WellFormed(l)
    ensures k in l.index ==> l.index[k] < |l.props| && l.props[l.index[k]].Live? && l.props[l.index[k]].key == k
  {
  }

  /** `shape_add_key` refines the update of an insertion-ordered map. */
  lemma AddKeyIsPut(l: Layout, k: Key, a: nat)
    requires WellFormed(l)
    ensures LiveProps(AddKey(l, k, a).props) == Put(LiveProps(l.props), k, a)
  {
    HasIndexed(l, k);
    if k in l.index {
      LiveUpdate(l.props, l.index[k], k, a);
    } else {
      LiveAppend(l.props, Live(k, a));
    }
  }

  /** Drop trailing tombstones. */
  function Trim(props: seq<Slot>): (r: seq<Slot>)
    ensures r <= props && |r| == |props| - (Tombstones(props) - Tombstones(r))
    ensures r != [] ==> r[|r| - 1].Live?
    ensures LiveProps(r) == LiveProps(props)
    ensures forall i | |r| <= i < |props| :: props[i].Deleted?
  {
    if props != [] && props[|props| - 1].Deleted? then Trim(props[..|props| - 1]) else props
  }

  /** `ant_shape_remove_slot`: tombstone the slot, then drop the tombstones at the end. */
  function RemoveSlot(l: Layout, slot: nat): Layout {
    if slot < |l.props| && l.props[slot].Live? then
      var t := Trim(l.props[slot := Deleted]);
      var dropped := |l.props| - |t|;
      Layout(t, l.index - {l.props[slot].key}, if dropped <= l.deleted + 1 then l.deleted + 1 - dropped else 0)
    else l
  }

  lemma RemoveSlotIndexed(l: Layout, slot: nat)
    requires Indexed(l.props, l.index) && slot < |l.props| && l.props[slot].Live?
    ensures Indexed(RemoveSlot(l, slot).props, RemoveSlot(l, slot).index)
  {
    hide Tombstones, LiveProps, Trim;
    var dead, r := l.props[slot := Deleted], RemoveSlot(l, slot);
    assert r.props == dead[..|r.props|];
    forall x <- r.index ensures r.index[x] < |r.props| && r.props[r.index[x]].Live? && r.props[r.index[x]].key == x {
      assert dead[l.index[x]] == l.props[l.index[x]];
    }
  }

  lemma RemoveSlotWellFormed(l: Layout, slot: nat)
    requires WellFormed(l)
    ensures WellFormed(RemoveSlot(l, slot))
  {
    hide Indexed;
    if slot < |l.props| && l.props[slot].Live? {
      RemoveSlotIndexed(l, slot);
      TombstoneUpdate(l.props, slot, Deleted);
    }
  }

  /** Removing a slot takes its key out of the ordered map and moves nothing else. */
  lemma RemoveSlotIsWithout(l: Layout, slot: nat)
    requires WellFormed(l) && slot < |l.props| && l.props[slot].Live?
    ensures LiveProps(RemoveSlot(l, slot).props) == Without(LiveProps(l.props), l.props[slot].key)
    ensures RemoveSlot(l, slot).props <= l.props[slot := Deleted]
  {
    LiveUpdate(l.props, slot, l.props[slot].key, 0);
  }

  /** `ant_shape_should_compact` */
  predicate ShouldCompact(l: Layout) {
    COMPACT_MIN_TOMBSTONES <= l.deleted && |l.props| - l.deleted <= l.deleted
  }

  lemma {:induction false} LiveUnique(props: seq<Slot>)
    requires UniqueKeys(props)
    ensures UniqueKeys(LiveProps(props)) && Tombstones(LiveProps(props)) == 0
  {
    if props != [] {
      var n := |props| - 1;
      var init, live := props[..n], LiveProps(props[..n]);
      LiveUnique(init);
      LiveFromProps(init);
      if props[n].Live? {
        TombstoneAppend(live, props[n]);
        forall i | 0 <= i < |live| ensures live[i].key != props[n].key {
          assert live[i] in init;
        }
      }
    }
  }

  lemma TombstoneAppend(r: seq<Slot>, x: Slot)
    ensures Tombstones(r + [x]) == Tombstones(r) + if x.Deleted? then 1 else 0
  {
    assert (r + [x])[..|r|] == r;
  }

  /** `ant_shape_compact`: the live slots move down, keeping their order. */
  function Compact(l: Layout): Layout {
    if l.deleted == 0 then l else Layout(LiveProps(l.props), IndexOf(LiveProps(l.props)), 0)
  }

  lemma CompactWellFormed(l: Layout)
    requires WellFormed(l)
    ensures WellFormed(Compact(l)) && Compact(l).props == LiveProps(l.props) && Compact(l).deleted == 0
  {
    LiveUnique(l.props);
    LiveFromProps(l.props);
    IndexOfIsIndex(LiveProps(l.props));
    if l.deleted == 0 { LiveAllLive(l.props); }
  }

  /** Compaction keeps every live property and its order, and leaves no tombstone. */
  lemma CompactKeepsOrder(l: Layout)
    requires WellFormed(l)
    ensures LiveProps(Compact(l).props) == LiveProps(l.props)
    ensures Compact(l).index.Keys == l.index.Keys
  {
    CompactWellFormed(l);
    LiveAllLive(Compact(l).props);
    forall k ensures k in Compact(l).index <==> k in l.index {
      HasIndexed(l, k);
      HasIndexed(Compact(l), k);
    }
  }

  lemma {:induction false} LiveAllLive(props: seq<Slot>)
    requires Tombstones(props) == 0
    ensures LiveProps(props) == props
  {
    if props != [] {
      LiveAllLive(props[..|props| - 1]);
      assert props == props[..|props| - 1] + [props[|props| - 1]];
    }
  }

  /** Tombstones stay fewer than max(32, live properties). */
  ghost predicate Sparse(l: Layout) {
    l.deleted < COMPACT_MIN_TOMBSTONES || l.deleted < |LiveProps(l.props)|
  }

  /** Deleting a property as `js_delete_prop` does: tombstone it, then compact if that is due. */
  function Delete(l: Layout, k: Key): Layout {
    if k in l.index then
      var t := RemoveSlot(l, l.index[k]);
      if ShouldCompact(t) then Compact(t) else t
    else l
  }

  lemma DeleteWellFormed(l: Layout, k: Key)
    requires WellFormed(l)
    ensures WellFormed(Delete(l, k))
  {
    if k in l.index {
      RemoveSlotWellFormed(l, l.index[k]);
      CompactWellFormed(RemoveSlot(l, l.index[k]));
    }
  }

  /** Deletion refines removal from the ordered map. */
  lemma DeleteIsWithout(l: Layout, k: Key)
    requires WellFormed(l)
    ensures LiveProps(Delete(l, k).props) == Without(LiveProps(l.props), k)
    ensures Delete(l, k).index.Keys == l.index.Keys - {k}
  {
    if k in l.index {
      var t := RemoveSlot(l, l.index[k]);
      RemoveSlotWellFormed(l, l.index[k]);
      RemoveSlotIsWithout(l, l.index[k]);
      assert t.index.Keys == l.index.Keys - {k};
      CompactKeepsOrder(t);
    } else {
      HasIndexed(l, k);
      LiveFromProps(l.props);
      SetInAbsent(LiveProps(l.props), k, 0);
    }
  }

  /** After any deletion the tombstones are fewer than max(32, live properties). */
  lemma DeleteSparse(l: Layout, k: Key)
    requires WellFormed(l) && k in l.index
    ensures Sparse(Delete(l, k))
  {
    var t := RemoveSlot(l, l.index[k]);
    RemoveSlotWellFormed(l, l.index[k]);
    if ShouldCompact(t) { CompactWellFormed(t); } else { LiveCount(t.props); }
  }

  lemma AddKeySparse(l: Layout, k: Key, a: nat)
    requires WellFormed(l) && Sparse(l)
    ensures Sparse(AddKey(l, k, a))
  {
    AddKeyWellFormed(l, k, a);
    LiveCount(l.props);
    LiveCount(AddKey(l, k, a).props);
  }

  /** A deleted key that is added again goes last, behind every surviving property. */
  lemma ReAddGoesLast(l: Layout, k: Key, a: nat)
    requires WellFormed(l)
    ensures LiveProps(AddKey(Delete(l, k), k, a).props) == Without(LiveProps(l.props), k) + [Live(k, a)]
  {
    DeleteWellFormed(l, k);
    DeleteIsWithout(l, k);
    AddKeyIsPut(Delete(l, k), k, a);
    HasIndexed(Delete(l, k), k);
  }
}
