/** Edits of the registry: a name leaves, a name joins, a directory moves. */
module FatLinks {
  import opened Bytes
  import opened FatSlots
  import opened FatDirectory
  import opened FatImage

  /** What the registry says of chain `f` is unchanged. */
  ghost predicate SameRecord(img: Image, img': Image, f: nat) {
    && img'.size == img.size
    && (f in img.views <==> f in img'.views)
    && (f in img.owner ==> f in img'.owner && img'.owner[f] == img.owner[f])
    && (f in img.chains ==> f in img'.chains && |img'.chains[f]| == |img.chains[f]|)
  }

  lemma EntryFrame(img: Image, img': Image, d: nat, k: Key)
    requires Listed(img, d, k) && Listed(img', d, k) && EntryOf(img', d, k) == EntryOf(img, d, k)
    requires EntryOk(img, d, k)
    requires !IsDot(k) ==> SameRecord(img, img', FirstCluster(EntryOf(img, d, k)))
    ensures EntryOk(img', d, k)
  {
    hide FirstCluster, Size, IsDirectory, IsDot;
  }

  // ------------------------------------------------------------- leaving

  ghost function Detached(img: Image, d: nat, k: Key): Image
    requires Listed(img, d, k)
  {
    var f := FirstCluster(EntryOf(img, d, k));
    img.(views := (img.views - {f})[d := img.views[d] - {k}],
         chains := img.chains - {f}, owner := img.owner - {f}, paths := img.paths - {f})
  }

  /** A file's name or an empty directory's may go. */
  ghost predicate Detachable(img: Image, d: nat, k: Key) {
    && Listed(img, d, k) && !IsDot(k)
    && var e := EntryOf(img, d, k);
       IsDirectory(e) ==> FirstCluster(e) in img.views && forall l | l in img.views[FirstCluster(e)] :: IsDot(l)
  }

  /** No other name refers to the chain of (`d`, `k`), and nothing hangs below it. */
  lemma SoleReference(img: Image, d: nat, k: Key, d2: nat, k2: Key)
    requires Linked(img) && Detachable(img, d, k)
    requires Listed(img, d2, k2) && !IsDot(k2)
    ensures var f := FirstCluster(EntryOf(img, d, k)); d2 != f
    ensures FirstCluster(EntryOf(img, d2, k2)) == FirstCluster(EntryOf(img, d, k)) != 0 ==> d2 == d && k2 == k
  {
    hide AllPlaced, AllOwners, FirstCluster, Size, IsDirectory, IsDot;
    assert EntryOk(img, d, k) && EntryOk(img, d2, k2);
  }

  lemma DetachLinked(img: Image, d: nat, k: Key)
    requires Linked(img) && Detachable(img, d, k)
    ensures Linked(Detached(img, d, k))
  {
    var img' := Detached(img, d, k);
    hide Linked, Detachable, Placed, OwnerOk, EntryOk, Detached, Registered;
    DetachRegistered(img, d, k);
    forall d2 | d2 in img'.views ensures Placed(img', d2) {
      DetachPlaced(img, d, k, d2);
    }
    forall h | h in img'.owner ensures OwnerOk(img', h) {
      DetachOwner(img, d, k, h);
    }
    forall d2, k2 | Listed(img', d2, k2) ensures EntryOk(img', d2, k2) {
      DetachEntry(img, d, k, d2, k2);
    }
    LinkedFrom(img');
  }

  lemma LinkedFrom(img: Image)
    requires Registered(img)
    requires forall d | d in img.views :: Placed(img, d)
    requires forall h | h in img.owner :: OwnerOk(img, h)
    requires forall d, k | Listed(img, d, k) :: EntryOk(img, d, k)
    ensures Linked(img)
  {
    hide Registered, Placed, OwnerOk, EntryOk, Listed;
  }

  lemma DetachRegistered(img: Image, d: nat, k: Key)
    requires Linked(img) && Detachable(img, d, k)
    ensures Registered(Detached(img, d, k))
  {
    hide AllPlaced, AllOwners, FirstCluster, Size, IsDirectory, IsDot;
    assert EntryOk(img, d, k);
    SoleReference(img, d, k, d, k);
  }

  lemma DetachPlaced(img: Image, d: nat, k: Key, d2: nat)
    requires Linked(img) && Detachable(img, d, k) && d2 in Detached(img, d, k).views
    ensures Placed(Detached(img, d, k), d2)
  {
    SoleReference(img, d, k, d, k);
    assert d2 in img.views && Placed(img, d2);
    if d2 != img.root {
      assert OwnerOk(img, d2);
      SoleReference(img, d, k, img.owner[d2].dir, img.owner[d2].key);
    }
    hide Linked, FirstCluster, IsDirectory, Detachable, OwnerOk, DotsOk, PlaceOk, Detached;
    DetachPlace(img, d, k, d2);
    DetachDots(img, d, k, d2);
  }

  lemma DetachPlace(img: Image, d: nat, k: Key, d2: nat)
    requires Listed(img, d, k) && d2 in img.views && d2 in Detached(img, d, k).views && PlaceOk(img, d2)
    requires var f := FirstCluster(EntryOf(img, d, k)); d2 != f && (d2 != img.root ==> img.owner[d2].dir != f)
    ensures PlaceOk(Detached(img, d, k), d2)
  {
    hide FirstCluster;
  }

  lemma DetachDots(img: Image, d: nat, k: Key, d2: nat)
    requires Listed(img, d, k) && !IsDot(k) && d2 in img.views && d2 in Detached(img, d, k).views && DotsOk(img, d2)
    requires d2 != FirstCluster(EntryOf(img, d, k))
    ensures DotsOk(Detached(img, d, k), d2)
  {
    DotKeys();
    var view, view' := img.views[d2], Detached(img, d, k).views[d2];
    hide FirstCluster, IsDot;
    assert view' == view || view' == view - {k};
    assert [DOT] in view <==> [DOT] in view';
    assert [DOT, DOT] in view <==> [DOT, DOT] in view';
  }

  lemma DotKeys()
    ensures IsDot([DOT]) && IsDot([DOT, DOT])
  {
  }

  lemma DetachOwner(img: Image, d: nat, k: Key, h: nat)
    requires Linked(img) && Detachable(img, d, k) && h in Detached(img, d, k).owner
    ensures OwnerOk(Detached(img, d, k), h)
  {
    hide AllEntries, AllPlaced, Registered, FirstCluster, Size, IsDirectory, IsDot, Detachable;
    assert OwnerOk(img, h);
    SoleReference(img, d, k, img.owner[h].dir, img.owner[h].key);
  }

  lemma DetachEntry(img: Image, d: nat, k: Key, d2: nat, k2: Key)
    requires Linked(img) && Detachable(img, d, k) && Listed(Detached(img, d, k), d2, k2)
    ensures Listed(img, d2, k2) && EntryOk(Detached(img, d, k), d2, k2)
  {
    SoleReference(img, d, k, d, k);
    DetachListed(img, d, k, d2, k2);
    assert EntryOk(img, d2, k2);
    if !IsDot(k2) {
      SoleReference(img, d, k, d2, k2);
      EntryRecord(img, d2, k2);
      DetachRecord(img, d, k, FirstCluster(EntryOf(img, d2, k2)));
    }
    hide Linked, FirstCluster, IsDot, Detachable, EntryOk, Listed, Detached;
    EntryFrame(img, Detached(img, d, k), d2, k2);
  }

  /** An unlisted chain number 0 has no record at all. */
  lemma EntryRecord(img: Image, d: nat, k: Key)
    requires Linked(img) && Listed(img, d, k) && !IsDot(k)
    ensures var f := FirstCluster(EntryOf(img, d, k));
            f == 0 ==> f !in img.views && f !in img.owner && f !in img.chains
  {
    hide AllPlaced, AllOwners, AllEntries, FirstCluster;
  }

  lemma DetachRecord(img: Image, d: nat, k: Key, f2: nat)
    requires Listed(img, d, k) && d in img.views
    requires f2 != FirstCluster(EntryOf(img, d, k)) || (f2 !in img.views && f2 !in img.owner && f2 !in img.chains)
    requires FirstCluster(EntryOf(img, d, k)) != d
    ensures SameRecord(img, Detached(img, d, k), f2)
  {
    hide FirstCluster;
  }

  lemma DetachListed(img: Image, d: nat, k: Key, d2: nat, k2: Key)
    requires Listed(img, d, k) && Listed(Detached(img, d, k), d2, k2) && FirstCluster(EntryOf(img, d, k)) != d
    ensures Listed(img, d2, k2) && !(d2 == d && k2 == k)
    ensures EntryOf(Detached(img, d, k), d2, k2) == EntryOf(img, d2, k2)
  {
    hide FirstCluster;
  }

  // ------------------------------------------------------------- joining

  /** The names a fresh directory starts with. */
  ghost predicate FreshDots(img: Image, dots: View, f: nat, d: nat) {
    && dots.Keys == {[DOT], [DOT, DOT]}
    && DotAt(dots, [DOT], 0) && DotAt(dots, [DOT, DOT], 1)
    && FirstCluster(dots[[DOT]].entry) == f
    && (var up := FirstCluster(dots[[DOT, DOT]].entry); up == d || (up == 0 && d == img.root))
  }

  ghost predicate Attachable(img: Image, d: nat, k: Key, g: Group, cs: seq<nat>, dots: View) {
    var f := FirstCluster(g.entry);
    && d in img.views && k !in img.views[d] && !IsDot(k)
    && (f == 0 ==> !IsDirectory(g.entry) && Size(g.entry) == 0)
    && (f != 0 ==> f !in img.chains && |cs| > 0 && cs[0] == f)
    && (f != 0 && !IsDirectory(g.entry) ==> 0 < Size(g.entry) <= |cs| * img.size)
    && (IsDirectory(g.entry) ==> FreshDots(img, dots, f, d))
  }

  ghost function Attached(img: Image, d: nat, k: Key, g: Group, cs: seq<nat>, dots: View): Image
    requires d in img.views
  {
    var f := FirstCluster(g.entry);
    var img1 := img.(views := img.views[d := img.views[d][k := g]]);
    if f == 0 then img1
    else
      var img2 := img1.(chains := img.chains[f := cs], owner := img.owner[f := Owner(d, k)]);
      if IsDirectory(g.entry) then
        img2.(views := img1.views[f := dots], paths := img.paths[f := (if d in img.paths then img.paths[d]
          else []) + [k]])
      else img2
  }

  lemma AttachLinked(img: Image, d: nat, k: Key, g: Group, cs: seq<nat>, dots: View)
    requires Linked(img) && Attachable(img, d, k, g, cs, dots)
    ensures d in img.paths && Linked(Attached(img, d, k, g, cs, dots))
  {
    assert Placed(img, d);
    var img' := Attached(img, d, k, g, cs, dots);
    hide Linked, Attachable, Placed, OwnerOk, EntryOk, Attached, Registered;
    AttachRegistered(img, d, k, g, cs, dots);
    forall d2 | d2 in img'.views ensures Placed(img', d2) {
      AttachPlaced(img, d, k, g, cs, dots, d2);
    }
    forall h | h in img'.owner ensures OwnerOk(img', h) {
      AttachOwner(img, d, k, g, cs, dots, h);
    }
    forall d2, k2 | Listed(img', d2, k2) ensures EntryOk(img', d2, k2) {
      AttachEntry(img, d, k, g, cs, dots, d2, k2);
    }
    LinkedFrom(img');
  }

  lemma AttachRegistered(img: Image, d: nat, k: Key, g: Group, cs: seq<nat>, dots: View)
    requires Linked(img) && Attachable(img, d, k, g, cs, dots) && d in img.paths
    ensures Registered(Attached(img, d, k, g, cs, dots))
  {
    hide AllPlaced, AllOwners, AllEntries, FirstCluster, Size, IsDirectory, IsDot;
  }

  lemma AttachPlaced(img: Image, d: nat, k: Key, g: Group, cs: seq<nat>, dots: View, d2: nat)
    requires Linked(img) && Attachable(img, d, k, g, cs, dots) && d in img.paths
    requires d2 in Attached(img, d, k, g, cs, dots).views
    ensures Placed(Attached(img, d, k, g, cs, dots), d2)
  {
    ParentPlaced(img, d2);
    hide Linked, FirstCluster, IsDirectory, PlaceOk, DotsOk;
    if d2 in img.views {
      AttachOldPlace(img, d, k, g, cs, dots, d2);
      AttachOldDots(img, d, k, g, cs, dots, d2);
    } else {
      AttachNewPlace(img, d, k, g, cs, dots);
    }
  }

  lemma ParentPlaced(img: Image, d: nat)
    requires Linked(img)
    ensures Registered(img)
    ensures d in img.views ==> PlaceOk(img, d) && DotsOk(img, d) && (d != img.root ==> img.owner[d].dir in img.views)
  {
    hide AllEntries, FirstCluster;
    if d in img.views {
      assert Placed(img, d);
      if d != img.root {
        assert OwnerOk(img, d);
      }
    }
  }

  lemma AttachNewPlace(img: Image, d: nat, k: Key, g: Group, cs: seq<nat>, dots: View)
    requires Registered(img) && Attachable(img, d, k, g, cs, dots) && IsDirectory(g.entry) && d in img.paths
    ensures Placed(Attached(img, d, k, g, cs, dots), FirstCluster(g.entry))
  {
    hide FirstCluster, IsDirectory, IsDot, Size;
  }

  lemma AttachOldPlace(img: Image, d: nat, k: Key, g: Group, cs: seq<nat>, dots: View, d2: nat)
    requires Registered(img) && d in img.views && d2 in img.views && PlaceOk(img, d2)
    requires d2 != img.root ==> img.owner[d2].dir in img.views
    requires FirstCluster(g.entry) !in img.chains
    ensures PlaceOk(Attached(img, d, k, g, cs, dots), d2)
  {
    hide FirstCluster, IsDirectory;
  }

  lemma AttachOldDots(img: Image, d: nat, k: Key, g: Group, cs: seq<nat>, dots: View, d2: nat)
    requires Registered(img) && d in img.views && d2 in img.views && DotsOk(img, d2) && !IsDot(k)
    requires FirstCluster(g.entry) !in img.chains
    ensures DotsOk(Attached(img, d, k, g, cs, dots), d2)
  {
    DotKeys();
    hide FirstCluster, IsDirectory, IsDot;
    var img' := Attached(img, d, k, g, cs, dots);
    var view, view' := img.views[d2], img'.views[d2];
    assert forall l | IsDot(l) :: (l in view <==> l in view') && (l in view ==> view'[l] == view[l]);
    assert d2 in img.owner ==> d2 in img'.owner && img'.owner[d2] == img.owner[d2];
  }

  /** Old names are untouched. */
  lemma AttachListed(img: Image, d: nat, k: Key, g: Group, cs: seq<nat>, dots: View, d2: nat, k2: Key)
    requires Registered(img) && d in img.views && k !in img.views[d]
    requires FirstCluster(g.entry) !in img.chains
    ensures var img' := Attached(img, d, k, g, cs, dots);
            var f := FirstCluster(g.entry);
            && (Listed(img, d2, k2) ==> Listed(img', d2, k2) && EntryOf(img', d2, k2) == EntryOf(img, d2, k2))
            && Listed(img', d, k) && EntryOf(img', d, k) == g.entry
            && (Listed(img', d2, k2) && !Listed(img, d2, k2) ==>
                  (d2 == d && k2 == k) || (d2 == f && f != 0 && IsDirectory(g.entry) && k2 in dots))
  {
    hide FirstCluster, IsDirectory;
  }

  lemma AttachOwner(img: Image, d: nat, k: Key, g: Group, cs: seq<nat>, dots: View, h: nat)
    requires Linked(img) && Attachable(img, d, k, g, cs, dots) && d in img.paths
    requires h in Attached(img, d, k, g, cs, dots).owner
    ensures OwnerOk(Attached(img, d, k, g, cs, dots), h)
  {
    var img' := Attached(img, d, k, g, cs, dots);
    assert img'.root == img.root && (h in img.owner ==> img'.owner[h] == img.owner[h]);
    assert h !in img.owner ==> h == FirstCluster(g.entry) && img'.owner[h] == Owner(d, k) && h != img.root;
    if h in img.owner {
      assert OwnerOk(img, h);
      AttachListed(img, d, k, g, cs, dots, img.owner[h].dir, img.owner[h].key);
    } else {
      AttachListed(img, d, k, g, cs, dots, d, k);
    }
    hide AllEntries, AllPlaced, AllOwners, Registered, FirstCluster, Size, IsDirectory, IsDot, Attached, Listed;
  }

  lemma AttachEntry(img: Image, d: nat, k: Key, g: Group, cs: seq<nat>, dots: View, d2: nat, k2: Key)
    requires Linked(img) && Attachable(img, d, k, g, cs, dots) && d in img.paths
    requires Listed(Attached(img, d, k, g, cs, dots), d2, k2)
    ensures EntryOk(Attached(img, d, k, g, cs, dots), d2, k2)
  {
    DotKeys();
    AttachListed(img, d, k, g, cs, dots, d2, k2);
    if Listed(img, d2, k2) {
      assert EntryOk(img, d2, k2);
      AttachRecord(img, d, k, g, cs, dots, d2, k2);
      hide Linked, FirstCluster, IsDirectory, IsDot, Attachable, EntryOk, Listed, Attached;
      EntryFrame(img, Attached(img, d, k, g, cs, dots), d2, k2);
    } else if d2 == d && k2 == k {
      AttachedEntry(img, d, k, g, cs, dots);
    }
  }

  lemma AttachRecord(img: Image, d: nat, k: Key, g: Group, cs: seq<nat>, dots: View, d2: nat, k2: Key)
    requires Registered(img) && Attachable(img, d, k, g, cs, dots)
    requires Listed(img, d2, k2) && EntryOk(img, d2, k2)
    ensures !IsDot(k2) ==> SameRecord(img, Attached(img, d, k, g, cs, dots), FirstCluster(EntryOf(img, d2, k2)))
  {
    hide FirstCluster, IsDirectory, IsDot, Size;
  }

  lemma AttachedEntry(img: Image, d: nat, k: Key, g: Group, cs: seq<nat>, dots: View)
    requires Registered(img) && Attachable(img, d, k, g, cs, dots)
    ensures Listed(Attached(img, d, k, g, cs, dots), d, k) && EntryOk(Attached(img, d, k, g, cs, dots), d, k)
  {
    AttachListed(img, d, k, g, cs, dots, d, k);
    hide FirstCluster, IsDirectory, IsDot, Size, Listed;
  }

  // -------------------------------------------------- moving a directory

  /** Paths at or below `from` hang below `to` instead. */
  function Rebased(path: seq<Key>, from: seq<Key>, to: seq<Key>): seq<Key> {
    if from <= path then to + path[|from|..] else path
  }

  ghost predicate Movable(img: Image, d: nat, k: Key, d2: nat, k2: Key, g: Group, up: Slot) {
    && Listed(img, d, k) && !IsDot(k) && IsDirectory(EntryOf(img, d, k))
    && d2 in img.views && !IsDot(k2) && k2 !in img.views[d2]
    && FirstCluster(g.entry) == FirstCluster(EntryOf(img, d, k)) && IsDirectory(g.entry)
    && (FirstCluster(up) == d2 || (FirstCluster(up) == 0 && d2 == img.root))
    && Listed(img, FirstCluster(g.entry), [DOT, DOT])
    && d in img.paths && d2 in img.paths
    && !(img.paths[d] + [k] <= img.paths[d2])
  }

  ghost function WithUp(view: View, up: Slot): View
    requires [DOT, DOT] in view
  {
    view[[DOT, DOT] := view[[DOT, DOT]].(entry := up)]
  }

  /** Directory `f` leaves (`d`, `k`) for (`d2`, `k2`), taking everything below it along. */
  ghost function MovedDir(img: Image, d: nat, k: Key, d2: nat, k2: Key, g: Group, up: Slot): Image
    requires Movable(img, d, k, d2, k2, g, up)
  {
    var f := FirstCluster(g.entry);
    var views1 := img.views[d := img.views[d] - {k}];
    var views2 := views1[d2 := views1[d2][k2 := g]];
    img.(views := views2[f := if [DOT, DOT] in views2[f] then WithUp(views2[f], up) else views2[f]],
         owner := img.owner[f := Owner(d2, k2)],
         paths := map x | x in img.paths :: Rebased(img.paths[x], img.paths[d] + [k], img.paths[d2] + [k2]))
  }

  lemma MovableFacts(img: Image, d: nat, k: Key, d2: nat, k2: Key, g: Group, up: Slot)
    requires Linked(img) && Movable(img, d, k, d2, k2, g, up)
    ensures var f := FirstCluster(g.entry);
            && Registered(img) && f != img.root && f in img.views && f != d && f != d2 && f != 0
            && f in img.owner && img.owner[f] == Owner(d, k) && f in img.paths && img.paths[f] == img.paths[d] + [k]
  {
    hide AllOwners, Size, IsDirectory, FirstCluster, IsDot, DotsOk;
    var f := FirstCluster(g.entry);
    assert EntryOk(img, d, k);
    assert f != 0;
    assert Placed(img, f);
    assert f == img.root || img.paths[f] == img.paths[d] + [k];
    assert f in img.owner && img.root !in img.owner;
  }

  lemma MoveLinked(img: Image, d: nat, k: Key, d2: nat, k2: Key, g: Group, up: Slot)
    requires Linked(img) && Movable(img, d, k, d2, k2, g, up)
    ensures Linked(MovedDir(img, d, k, d2, k2, g, up))
  {
    var img' := MovedDir(img, d, k, d2, k2, g, up);
    MoveRegistered(img, d, k, d2, k2, g, up);
    hide Linked, Movable, Placed, OwnerOk, EntryOk, MovedDir, Registered, Listed, IsDirectory, FirstCluster;
    forall x | x in img'.views ensures Placed(img', x) {
      MovePlaced(img, d, k, d2, k2, g, up, x);
    }
    forall h | h in img'.owner ensures OwnerOk(img', h) {
      MoveOwner(img, d, k, d2, k2, g, up, h);
    }
    forall x, y | Listed(img', x, y) ensures EntryOk(img', x, y) {
      MoveEntry(img, d, k, d2, k2, g, up, x, y);
    }
    LinkedFrom(img');
  }

  lemma MoveRegistered(img: Image, d: nat, k: Key, d2: nat, k2: Key, g: Group, up: Slot)
    requires Linked(img) && Movable(img, d, k, d2, k2, g, up)
    ensures Registered(MovedDir(img, d, k, d2, k2, g, up))
  {
    MovableFacts(img, d, k, d2, k2, g, up);
    hide AllPlaced, AllOwners, AllEntries, FirstCluster, MovedDir, Movable;
    MoveKeys(img, d, k, d2, k2, g, up);
  }

  lemma MoveKeys(img: Image, d: nat, k: Key, d2: nat, k2: Key, g: Group, up: Slot)
    requires Movable(img, d, k, d2, k2, g, up)
    requires var f := FirstCluster(g.entry); f in img.views && f in img.owner
    ensures var img' := MovedDir(img, d, k, d2, k2, g, up);
            && img'.views.Keys == img.views.Keys && img'.owner.Keys == img.owner.Keys
            && img'.paths.Keys == img.paths.Keys && img'.chains == img.chains && img'.root == img.root
  {
    hide FirstCluster, IsDirectory, IsDot, Rebased;
  }

  lemma RebasedChild(parent: seq<Key>, key: Key, from: seq<Key>, to: seq<Key>)
    requires from != parent + [key]
    ensures Rebased(parent + [key], from, to) == Rebased(parent, from, to) + [key]
  {
    if from <= parent + [key] {
      assert |from| <= |parent|;
      assert (parent + [key])[..|from|] == parent[..|from|];
      assert (parent + [key])[|from|..] == parent[|from|..] + [key];
    }
  }

  lemma MovePlaced(img: Image, d: nat, k: Key, d2: nat, k2: Key, g: Group, up: Slot, x: nat)
    requires Linked(img) && Movable(img, d, k, d2, k2, g, up) && x in img.views
    ensures Placed(MovedDir(img, d, k, d2, k2, g, up), x)
  {
    MovableFacts(img, d, k, d2, k2, g, up);
    ParentPlaced(img, x);
    var f := FirstCluster(g.entry);
    if x != img.root && x != f {
      if img.paths[x] == img.paths[f] {
        PathInjective(img, x, f);
      }
    }
    hide Linked, FirstCluster, IsDirectory, PlaceOk, DotsOk, Movable;
    MovePlace(img, d, k, d2, k2, g, up, x);
    MoveDots(img, d, k, d2, k2, g, up, x);
  }

  lemma MovePlace(img: Image, d: nat, k: Key, d2: nat, k2: Key, g: Group, up: Slot, x: nat)
    requires Registered(img) && Movable(img, d, k, d2, k2, g, up) && x in img.views && PlaceOk(img, x)
    requires x != img.root ==> img.owner[x].dir in img.views
    requires var f := FirstCluster(g.entry);
             && f != img.root && f in img.paths && img.paths[f] == img.paths[d] + [k]
             && (x != img.root && x != f ==> img.paths[x] != img.paths[f])
    ensures PlaceOk(MovedDir(img, d, k, d2, k2, g, up), x)
  {
    hide FirstCluster, IsDirectory, IsDot;
    var from, to := img.paths[d] + [k], img.paths[d2] + [k2];
    if x != img.root {
      if x == FirstCluster(g.entry) {
        assert from[|from|..] == [];
      } else {
        RebasedChild(img.paths[img.owner[x].dir], img.owner[x].key, from, to);
      }
    }
  }

  lemma MoveDots(img: Image, d: nat, k: Key, d2: nat, k2: Key, g: Group, up: Slot, x: nat)
    requires Registered(img) && Movable(img, d, k, d2, k2, g, up) && x in img.views && DotsOk(img, x)
    requires var f := FirstCluster(g.entry); f != img.root && f != d && f != d2
    ensures DotsOk(MovedDir(img, d, k, d2, k2, g, up), x)
  {
    DotKeys();
    hide FirstCluster, IsDirectory, IsDot, Rebased;
    var img' := MovedDir(img, d, k, d2, k2, g, up);
    var view, view' := img.views[x], img'.views[x];
    if x == FirstCluster(g.entry) {
      assert view' == WithUp(view, up);
    } else {
      assert [DOT] in view <==> [DOT] in view';
      assert [DOT, DOT] in view <==> [DOT, DOT] in view';
      assert [DOT] in view ==> view'[[DOT]] == view[[DOT]];
      assert [DOT, DOT] in view ==> view'[[DOT, DOT]] == view[[DOT, DOT]];
    }
  }

  /** Besides the moved name only ".." of the moved directory changes. */
  lemma MoveListed(img: Image, d: nat, k: Key, d2: nat, k2: Key, g: Group, up: Slot, x: nat, y: Key)
    requires Movable(img, d, k, d2, k2, g, up)
    requires var f := FirstCluster(g.entry); f != d && f != d2
    ensures var img' := MovedDir(img, d, k, d2, k2, g, up);
            && Listed(img', d2, k2) && EntryOf(img', d2, k2) == g.entry
            && (!IsDot(y) && !(x == d2 && y == k2) ==>
                 (Listed(img', x, y) <==> Listed(img, x, y) && !(x == d && y == k)))
            && (!IsDot(y) && !(x == d2 && y == k2) && Listed(img', x, y) ==> EntryOf(img', x, y) == EntryOf(img, x, y))
  {
    DotKeys();
    hide FirstCluster, IsDirectory, IsDot, Rebased;
  }

  lemma MoveOwner(img: Image, d: nat, k: Key, d2: nat, k2: Key, g: Group, up: Slot, h: nat)
    requires Linked(img) && Movable(img, d, k, d2, k2, g, up) && h in MovedDir(img, d, k, d2, k2, g, up).owner
    ensures OwnerOk(MovedDir(img, d, k, d2, k2, g, up), h)
  {
    MovableFacts(img, d, k, d2, k2, g, up);
    var img' := MovedDir(img, d, k, d2, k2, g, up);
    assert h in img.owner && img'.root == img.root;
    assert img'.owner[h] == if h == FirstCluster(g.entry) then Owner(d2, k2) else img.owner[h];
    assert OwnerOk(img, h);
    MoveListed(img, d, k, d2, k2, g, up, img.owner[h].dir, img.owner[h].key);
    hide Linked, FirstCluster, IsDirectory, IsDot, MovedDir, Listed;
  }

  lemma MoveEntry(img: Image, d: nat, k: Key, d2: nat, k2: Key, g: Group, up: Slot, x: nat, y: Key)
    requires Linked(img) && Movable(img, d, k, d2, k2, g, up) && Listed(MovedDir(img, d, k, d2, k2, g, up), x, y)
    ensures EntryOk(MovedDir(img, d, k, d2, k2, g, up), x, y)
  {
    MovableFacts(img, d, k, d2, k2, g, up);
    MoveListed(img, d, k, d2, k2, g, up, x, y);
    if !IsDot(y) {
      assert EntryOk(img, d, k);
      if x == d2 && y == k2 {
        MovedEntry(img, d, k, d2, k2, g, up);
      } else {
        assert EntryOk(img, x, y);
        MoveRecord(img, d, k, d2, k2, g, up, FirstCluster(EntryOf(img, x, y)));
        hide Linked, FirstCluster, IsDirectory, IsDot, MovedDir, Listed, EntryOk;
        EntryFrame(img, MovedDir(img, d, k, d2, k2, g, up), x, y);
      }
    }
  }

  lemma MovedEntry(img: Image, d: nat, k: Key, d2: nat, k2: Key, g: Group, up: Slot)
    requires Movable(img, d, k, d2, k2, g, up) && EntryOk(img, d, k)
    requires Listed(MovedDir(img, d, k, d2, k2, g, up), d2, k2)
    requires EntryOf(MovedDir(img, d, k, d2, k2, g, up), d2, k2) == g.entry
    requires var f := FirstCluster(g.entry); f in img.views && f in img.owner && f in img.chains && f != 0
    ensures EntryOk(MovedDir(img, d, k, d2, k2, g, up), d2, k2)
  {
    hide FirstCluster, Size, IsDot, Listed;
  }

  lemma MoveRecord(img: Image, d: nat, k: Key, d2: nat, k2: Key, g: Group, up: Slot, f2: nat)
    requires Registered(img) && Movable(img, d, k, d2, k2, g, up) && f2 != FirstCluster(g.entry)
    requires FirstCluster(g.entry) in img.views
    ensures SameRecord(img, MovedDir(img, d, k, d2, k2, g, up), f2)
  {
    hide FirstCluster, IsDirectory, IsDot, Rebased;
  }
}
