/** What create-only publication adds to a disk: directories, and for each output at most one file of its own,
    under its staging name or at its target (delivery_evidence.rs, module `secure`). */
module DeliveryOverlays {
  import opened Disks
  import opened DiskPaths
  import opened StagingFiles
  import opened Options
  import opened Paths

  datatype State = Existing | Staged | Created

  datatype Prepared = Prepared(
    index: nat, path: Path, parent: Inode, contents: Bytes,
    expectedIdentity: Option<Inode>, stagingName: Option<string>, stagedIdentity: Option<Inode>, state: State)
  {
    function Target(): Slot
      requires path != []
    {
      Slot(parent, FileName(path))
    }

    function Staging(): Slot { Slot(parent, stagingName.GetOr("")) }

    /** The name that the file of this output has now. */
    function Place(): Slot
      requires path != []
    {
      if state.Created? then Target() else Staging()
    }

    predicate WellMade(planned: set<string>) {
      && path != [] && FileName(path) in planned
      && if state.Existing? then expectedIdentity.Some? && stagingName.None? && stagedIdentity.None?
         else expectedIdentity.None? && stagedIdentity.Some? && stagingName.Some? && stagingName.value !in planned
    }
  }

  /** The output's own file stands at its place. */
  predicate Bound(d: Disk, e: Prepared) {
    e.path != [] && !e.state.Existing? && e.stagedIdentity.Some? && IdentityAt(d, e.Place()) == e.stagedIdentity
  }

  ghost function Extra(d: Disk, entries: seq<Prepared>): set<Slot> {
    set e | e in entries && Bound(d, e) :: e.Place()
  }

  ghost predicate OwnIdentities(base: Disk, d: Disk, entries: seq<Prepared>) {
    && (forall e :: e in entries && !e.state.Existing? ==>
          && e.stagedIdentity.Some? && e.stagedIdentity.value !in base.nodes
          && e.stagedIdentity.value in d.nodes && d.nodes[e.stagedIdentity.value] == File(e.contents))
    && (forall i, j :: 0 <= i < j < |entries| && !entries[i].state.Existing? && !entries[j].state.Existing? ==>
          entries[i].stagedIdentity != entries[j].stagedIdentity)
  }

  /** `d` is `base` with the files of `entries` at their places. */
  ghost predicate Overlay(base: Disk, d: Disk, entries: seq<Prepared>) {
    && WellFormed(base) && WellFormed(d) && Keeps(base, d)
    && d.names.Keys == base.names.Keys + Extra(d, entries)
    && OwnIdentities(base, d, entries)
  }

  /** No file of an output has gone. */
  ghost predicate Standing(d: Disk, entries: seq<Prepared>) {
    forall e :: e in entries && !e.state.Existing? ==> Bound(d, e)
  }

  lemma NothingOver(d: Disk)
    requires WellFormed(d)
    ensures Overlay(d, d, []) && Standing(d, [])
  {
  }

  lemma OthersIdentity(base: Disk, d: Disk, entries: seq<Prepared>, k: nat, e: Prepared)
    requires OwnIdentities(base, d, entries) && k < |entries| && !entries[k].state.Existing?
    requires e in entries && e != entries[k] && !e.state.Existing?
    ensures e.stagedIdentity != entries[k].stagedIdentity
  {
  }

  // ---------- Directories ----------

  lemma OverlayGrows(base: Disk, d: Disk, d': Disk, entries: seq<Prepared>)
    requires Overlay(base, d, entries) && Standing(d, entries)
    requires OnlyDirectoriesAdded(d, d') && NewNamesFresh(d, d') && WellFormed(d')
    ensures var base' := Grown(base, d, d');
      && Overlay(base', d', entries) && Standing(d', entries)
      && OnlyDirectoriesAdded(base, base') && NewNamesFresh(base, base')
  {
    var base' := Grown(base, d, d');
    GrownDisk(base, d, d');
    GrownByDirectories(base, d, d');
    StillBound(base, d, d', entries);
    OwnAfterGrowing(base, base', d, d', entries);
    OnlyDirectoriesKeepNames(d, d');
    hide Bound, Extra, Keeps, WellFormed, NodeAt, Grown, NewNamesFresh, OwnIdentities, OnlyDirectoriesAdded;
  }

  lemma OwnAfterGrowing(base: Disk, base': Disk, d: Disk, d': Disk, entries: seq<Prepared>)
    requires OwnIdentities(base, d, entries) && OnlyDirectoriesAdded(d, d')
    requires base'.nodes.Keys == base.nodes.Keys + (d'.nodes.Keys - d.nodes.Keys)
    ensures OwnIdentities(base', d', entries)
  {
  }

  lemma StillBound(base: Disk, d: Disk, d': Disk, entries: seq<Prepared>)
    requires OwnIdentities(base, d, entries) && OnlyDirectoriesAdded(d, d') && NewNamesFresh(d, d')
    ensures Extra(d', entries) == Extra(d, entries)
    ensures Standing(d, entries) ==> Standing(d', entries)
  {
    assert forall e :: e in entries ==> (Bound(d, e) <==> Bound(d', e));
  }

  // ---------- Staging ----------

  lemma OverlayStaged(base: Disk, d: Disk, d': Disk, entries: seq<Prepared>, e: Prepared)
    requires Overlay(base, d, entries) && Standing(d, entries)
    requires e.path != [] && e.state.Staged? && e.stagedIdentity.Some?
    requires e.Staging() !in d.names && e.stagedIdentity.value !in d.nodes
    requires d' == d.(names := d.names[e.Staging() := e.stagedIdentity.value],
                      nodes := d.nodes[e.stagedIdentity.value := File(e.contents)])
    ensures Overlay(base, d', entries + [e]) && Standing(d', entries + [e])
  {
    var entries' := entries + [e];
    forall f | f in entries' && !f.state.Existing? ensures Bound(d', f) {
      if f in entries { assert Bound(d, f); }
    }
    forall s ensures s in Extra(d', entries') <==> s in Extra(d, entries) || s == e.Staging() {
      if s in Extra(d, entries) {
        var f :| f in entries && Bound(d, f) && f.Place() == s;
        assert f in entries' && Bound(d', f);
      }
      if s == e.Staging() {
        assert e in entries' && Bound(d', e);
      }
    }
  }

  /** A file left under a name that no output has counts as part of the lower disk. */
  lemma OverlayLeft(base: Disk, d: Disk, d': Disk, entries: seq<Prepared>, slot: Slot, id: Inode, data: Bytes)
    requires Overlay(base, d, entries) && Standing(d, entries)
    requires slot !in d.names && id !in d.nodes
    requires d' == d.(names := d.names[slot := id], nodes := d.nodes[id := File(data)])
    ensures var base' := base.(names := base.names[slot := id], nodes := base.nodes[id := File(data)]);
      && Overlay(base', d', entries) && Standing(d', entries)
      && Keeps(base, base') && HasNewFile(base, base')
  {
    var base' := base.(names := base.names[slot := id], nodes := base.nodes[id := File(data)]);
    assert forall e :: e in entries ==> (Bound(d', e) <==> Bound(d, e));
    assert Extra(d', entries) == Extra(d, entries);
    assert NodeAt(base', slot) == Some(File(data)) && slot in base'.names && slot !in base.names;
  }

  lemma OverlayDiscarded(base: Disk, d: Disk, d': Disk, entries: seq<Prepared>, id: Inode, node: Node)
    requires Overlay(base, d, entries) && Standing(d, entries) && id !in d.nodes
    requires d' == d.(nodes := d.nodes[id := node])
    ensures Overlay(base, d', entries) && Standing(d', entries)
  {
    assert forall e :: Bound(d', e) <==> Bound(d, e);
    assert Extra(d', entries) == Extra(d, entries);
  }

  lemma OverlayEffect(base: Disk, d: Disk, d': Disk, entries: seq<Prepared>, e: Prepared, effect: StagingEffect)
    requires Overlay(base, d, entries) && Standing(d, entries) && e.path != []
    requires HasEffect(d, e.Staging(), e.contents, effect, d')
    requires effect.Written? ==> e.state.Staged? && e.stagedIdentity == Some(effect.id)
    ensures var base' := LowerDisk(base, e.Staging(), effect);
      var entries' := if effect.Written? then entries + [e] else entries;
      && Overlay(base', d', entries') && Standing(d', entries') && Keeps(base, base')
      && (effect.Left? ==> HasNewFile(base, base'))
  {
    match effect
    case Untouched =>
    case Written(_) => OverlayStaged(base, d, d', entries, e);
    case Left(id, data) => OverlayLeft(base, d, d', entries, e.Staging(), id, data);
    case Removed(id, node) => OverlayDiscarded(base, d, d', entries, id, node);
  }

  // ---------- Moving and removing ----------

  /** Changing one entry and its place changes the extra names accordingly. */
  lemma ExtraMoves(d: Disk, d': Disk, base: Disk, entries: seq<Prepared>, k: nat, e: Prepared)
    requires OwnIdentities(base, d, entries) && k < |entries| && Bound(d, entries[k])
    requires e == entries[k].(state := e.state) && !e.state.Existing?
    requires d' == d.(names := d'.names)
    requires forall s :: s != entries[k].Place() && (s in d.names || s != e.Place()) ==>
      IdentityAt(d', s) == IdentityAt(d, s)
    requires e.Place() != entries[k].Place() ==> IdentityAt(d, e.Place()) != e.stagedIdentity
    requires e.Place() !in d.names && e.Place() in d'.names ==> d'.names[e.Place()] == e.stagedIdentity.value
    requires e.Place() == entries[k].Place() ==> e.Place() !in d'.names
    requires e.Place() != entries[k].Place() ==> entries[k].Place() !in d'.names
    ensures var entries' := entries[k := e];
      && Extra(d', entries') == Extra(d, entries) - {entries[k].Place()} +
           (if Bound(d', e) then {e.Place()} else {})
      && OwnIdentities(base, d', entries')
      && (forall j :: 0 <= j < |entries| && j != k && !entries[j].state.Existing? ==>
            (Bound(d', entries[j]) <==> Bound(d, entries[j])))
  {
    var entries', was := entries[k := e], entries[k];
    forall j | 0 <= j < |entries| && j != k && !entries[j].state.Existing?
      ensures Bound(d', entries[j]) <==> Bound(d, entries[j])
      ensures Bound(d, entries[j]) ==> entries[j].Place() != was.Place()
    {
      assert entries[j].stagedIdentity != was.stagedIdentity;
    }
    forall s ensures s in Extra(d', entries') <==>
      (s in Extra(d, entries) && s != was.Place()) || (Bound(d', e) && s == e.Place())
    {
      if s in Extra(d', entries') {
        var f :| f in entries' && Bound(d', f) && f.Place() == s;
        var j :| 0 <= j < |entries'| && entries'[j] == f;
        if j != k { assert Bound(d, entries[j]) && entries[j] in entries; }
      }
      if s in Extra(d, entries) && s != was.Place() {
        var f :| f in entries && Bound(d, f) && f.Place() == s;
        var j :| 0 <= j < |entries| && entries[j] == f;
        assert entries'[j] == f && f in entries' && Bound(d', f);
      }
      if Bound(d', e) && s == e.Place() {
        assert entries'[k] in entries';
      }
    }
  }

  lemma OverlayInstalled(base: Disk, d: Disk, entries: seq<Prepared>, k: nat)
    requires Overlay(base, d, entries) && Standing(d, entries) && k < |entries|
    requires entries[k].path != [] && entries[k].state.Staged?
    requires entries[k].Target() !in d.names
    ensures var w := entries[k];
      var op := Op.RenameNoReplace(w.Staging(), w.Target());
      var entries' := entries[k := w.(state := Created)];
      && Enabled(d, op)
      && Overlay(base, Apply(d, op), entries') && Standing(Apply(d, op), entries')
  {
    var w := entries[k];
    assert w in entries && Bound(d, w);
    var op := Op.RenameNoReplace(w.Staging(), w.Target());
    var d', e := Apply(d, op), w.(state := Created);
    ExtraMoves(d, d', base, entries, k, e);
    var entries' := entries[k := e];
    forall f | f in entries' && !f.state.Existing? ensures Bound(d', f) {
      var j :| 0 <= j < |entries'| && entries'[j] == f;
      if j != k { assert entries[j] in entries; }
    }
    assert w.Staging() in Extra(d, entries) && w.Staging() !in base.names;
  }

  /** Removing the file of an output by its identity. */
  lemma OverlayRemoved(base: Disk, d: Disk, entries: seq<Prepared>, k: nat, planned: set<string>)
    requires Overlay(base, d, entries) && k < |entries| && entries[k].WellMade(planned)
    requires Bound(d, entries[k])
    ensures var w := entries[k];
      var op := Op.Unlink(w.Place(), w.stagedIdentity.value);
      var entries' := entries[k := w.(state := Staged)];
      && Enabled(d, op)
      && Overlay(base, Apply(d, op), entries')
      && !Bound(Apply(d, op), entries'[k])
      && (forall j :: 0 <= j < |entries| && j != k && !entries[j].state.Existing? ==>
            (Bound(Apply(d, op), entries[j]) <==> Bound(d, entries[j])))
  {
    var w := entries[k];
    assert w in entries;
    var op := Op.Unlink(w.Place(), w.stagedIdentity.value);
    var d', e := Apply(d, op), w.(state := Staged);
    assert w.Place() in Extra(d, entries) && w.Place() !in base.names;
    if e.Place() != w.Place() {
      StagingIsFree(base, d, entries, k, planned);
    }
    ExtraMoves(d, d', base, entries, k, e);
  }

  /** Once installed, the output's file has left its staging name. */
  lemma StagingIsFree(base: Disk, d: Disk, entries: seq<Prepared>, k: nat, planned: set<string>)
    requires Overlay(base, d, entries) && k < |entries| && entries[k].WellMade(planned)
    requires entries[k].state.Created?
    ensures IdentityAt(d, entries[k].Staging()) != entries[k].stagedIdentity
  {
    var w := entries[k];
    assert w in entries;
    forall f | f in entries && Bound(d, f) && f.Place() == w.Staging()
      ensures IdentityAt(d, w.Staging()) != w.stagedIdentity
    {
      if f != w {
        OthersIdentity(base, d, entries, k, f);
      }
    }
    assert w.Staging() in d.names && w.Staging() !in base.names ==> w.Staging() in Extra(d, entries);
  }

  /** Without files of outputs only the lower disk is left. */
  lemma OverlayEmpty(base: Disk, d: Disk, entries: seq<Prepared>)
    requires Overlay(base, d, entries) && forall e :: e in entries ==> !Bound(d, e)
    ensures d.names == base.names && OnlyDirectoriesAdded(base, d)
  {
    assert Extra(d, entries) == {};
  }
}
