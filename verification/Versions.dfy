/** The model version manifest (bot/ml/versioning.py). Each operation loads the
    manifest, changes it and saves it; a load that fails reads as empty. */
module Versions {
  import opened Common

  type Metrics = map<string, real>

  datatype Version = Version(name: string, samples: int, metrics: Metrics)

  datatype Manifest = Manifest(current: Option<string>, versions: seq<Version>)

  const EMPTY := Manifest(None, [])

  // ----- the operations on values -----

  function Loaded(m: Manifest, readable: bool): Manifest {
    if readable then m else EMPTY
  }

  /** The versions under another name. */
  function Others(versions: seq<Version>, name: string): seq<Version> {
    if versions == [] then []
    else
      var last := versions[|versions| - 1];
      Others(versions[..|versions| - 1], name) + (if last.name != name then [last] else [])
  }

  function Registered(m: Manifest, v: Version, setCurrent: bool): Manifest {
    Manifest(if setCurrent then Some(v.name) else m.current, Others(m.versions, v.name) + [v])
  }

  predicate Knows(m: Manifest, name: string) {
    exists i :: 0 <= i < |m.versions| && m.versions[i].name == name
  }

  predicate CanRollBack(m: Manifest, name: string, fileExists: bool) {
    Knows(m, name) && fileExists
  }

  function RolledBack(m: Manifest, name: string, fileExists: bool): Manifest {
    if CanRollBack(m, name, fileExists) then m.(current := Some(name)) else m
  }

  function Reverse(versions: seq<Version>): seq<Version> {
    if versions == [] then [] else [versions[|versions| - 1]] + Reverse(versions[..|versions| - 1])
  }

  // ----- what they keep -----

  ghost predicate Distinct(versions: seq<Version>) {
    forall i, j :: 0 <= i < j < |versions| ==> versions[i].name != versions[j].name
  }

  /** Names are distinct, and the current version is a registered one or none. */
  ghost predicate Sound(m: Manifest) {
    && Distinct(m.versions)
    && (m.current.Some? ==> Knows(m, m.current.value))
  }

  lemma {:induction false} OthersMembers(versions: seq<Version>, name: string)
    ensures forall v :: v in Others(versions, name) <==> v in versions && v.name != name
  {
    if versions != [] {
      OthersMembers(versions[..|versions| - 1], name);
      assert versions == versions[..|versions| - 1] + [versions[|versions| - 1]];
    }
  }

  lemma {:induction false} OthersAll(versions: seq<Version>, name: string)
    requires forall i :: 0 <= i < |versions| ==> versions[i].name != name
    ensures Others(versions, name) == versions
  {
    if versions != [] { OthersAll(versions[..|versions| - 1], name); }
  }

  lemma DistinctAppend(versions: seq<Version>, v: Version)
    requires Distinct(versions) && forall u :: u in versions ==> u.name != v.name
    ensures Distinct(versions + [v])
  {
  }

  lemma {:induction false} OthersDistinct(versions: seq<Version>, name: string)
    requires Distinct(versions)
    ensures Distinct(Others(versions, name))
  {
    if versions != [] {
      var init, last := versions[..|versions| - 1], versions[|versions| - 1];
      OthersDistinct(init, name);
      OthersMembers(init, name);
      if last.name != name {
        DistinctAppend(Others(init, name), last);
      } else {
        assert Others(versions, name) == Others(init, name);
      }
    }
  }

  lemma KnowsMember(m: Manifest, v: Version)
    requires v in m.versions
    ensures Knows(m, v.name)
  {
    var i :| 0 <= i < |m.versions| && m.versions[i] == v;
  }

  /** A registration keeps every version known, and makes its own known with its data. */
  lemma RegisterKeeps(m: Manifest, v: Version, setCurrent: bool)
    requires Sound(m)
    ensures Sound(Registered(m, v, setCurrent))
    ensures forall name :: Knows(Registered(m, v, setCurrent), name) <==> Knows(m, name) || name == v.name
    ensures v in Registered(m, v, setCurrent).versions
    ensures forall u :: u in m.versions && u.name != v.name ==> u in Registered(m, v, setCurrent).versions
  {
    var m' := Registered(m, v, setCurrent);
    OthersMembers(m.versions, v.name);
    OthersDistinct(m.versions, v.name);
    DistinctAppend(Others(m.versions, v.name), v);
    assert m'.versions[|m'.versions| - 1] == v;
    KnowsMember(m', v);
    forall name ensures Knows(m', name) <==> Knows(m, name) || name == v.name {
      if Knows(m, name) && name != v.name {
        var i :| 0 <= i < |m.versions| && m.versions[i].name == name;
        KnowsMember(m', m.versions[i]);
      }
      if Knows(m', name) && name != v.name {
        var i :| 0 <= i < |m'.versions| && m'.versions[i].name == name;
        KnowsMember(m, m'.versions[i]);
      }
    }
  }

  /** A registration selects its version when asked to, and enters it last; a
      new name leaves the older entries in place. */
  lemma RegisterSets(m: Manifest, v: Version, setCurrent: bool)
    ensures Registered(m, v, setCurrent).current == if setCurrent then Some(v.name) else m.current
    ensures var after := Registered(m, v, setCurrent).versions;
      && after != [] && after[|after| - 1] == v
      && (!Knows(m, v.name) ==> after == m.versions + [v])
  {
    if !Knows(m, v.name) { OthersAll(m.versions, v.name); }
  }

  lemma RollBackKeeps(m: Manifest, name: string, fileExists: bool)
    requires Sound(m)
    ensures Sound(RolledBack(m, name, fileExists))
    ensures forall other :: Knows(RolledBack(m, name, fileExists), other) <==> Knows(m, other)
  {
    assert RolledBack(m, name, fileExists).versions == m.versions;
  }

  /** A rollback changes nothing but the current version, and that exactly for
      a registered version whose file exists. */
  lemma RollBackSets(m: Manifest, name: string, fileExists: bool)
    ensures RolledBack(m, name, fileExists).versions == m.versions
    ensures RolledBack(m, name, fileExists).current ==
      if fileExists && exists i :: 0 <= i < |m.versions| && m.versions[i].name == name then Some(name) else m.current
  {
    assert Knows(m, name) <==> exists i :: 0 <= i < |m.versions| && m.versions[i].name == name;
  }

  /** Rolling back to the version a registration replaced restores the choice,
      and the registered version stays available. */
  lemma RollBackUndoesRegister(m: Manifest, v: Version, fileExists: bool)
    requires Sound(m) && m.current.Some? && fileExists
    ensures var m' := RolledBack(Registered(m, v, true), m.current.value, fileExists);
      m'.current == m.current && Knows(m', v.name)
  {
    RegisterKeeps(m, v, true);
    RollBackKeeps(Registered(m, v, true), m.current.value, fileExists);
  }

  lemma {:induction false} ReverseMeaning(versions: seq<Version>, i: nat)
    requires i < |versions|
    ensures |Reverse(versions)| == |versions|
    ensures Reverse(versions)[i] == versions[|versions| - 1 - i]
  {
    var init := versions[..|versions| - 1];
    if i > 0 {
      ReverseMeaning(init, i - 1);
    } else if init != [] {
      ReverseMeaning(init, 0);
    }
  }

  // ----- when an operation is not atomic -----

  /** A rollback that loads before a registration saves, and saves after it,
      writes back what it loaded: the new version survives exactly when it had
      been registered before. */
  lemma OverlappingRollbackForgets(m: Manifest, v: Version, name: string)
    requires Sound(m) && CanRollBack(m, name, true)
    ensures var loaded := m; var registered := Registered(m, v, true);
      var saved := RolledBack(loaded, name, true);
      Knows(registered, v.name) && (Knows(saved, v.name) <==> Knows(m, v.name))
  {
    RegisterKeeps(m, v, true);
    RollBackKeeps(m, name, true);
  }

  /** A registration that cannot read the manifest saves its own version alone. */
  lemma UnreadableRegisterForgets(m: Manifest, v: Version, name: string)
    requires Sound(m) && Knows(m, name)
    ensures Knows(Registered(Loaded(m, false), v, true), name) <==> name == v.name
  {
    RegisterKeeps(EMPTY, v, true);
  }

  // ----- the stored manifest -----

  class Store {
    var current: Option<string>
    var versions: seq<Version>

    function Value(): Manifest
      reads this
    {
      Manifest(current, versions)
    }

    constructor ()
      ensures Value() == EMPTY
    {
      current, versions := None, [];
    }

    /** Drop an older version of the same name, append the new one, save. */
    method RegisterVersion(v: Version, setCurrent: bool, readable: bool)
      modifies this
      ensures Value() == Registered(Loaded(old(Value()), readable), v, setCurrent)
      ensures current == if setCurrent then Some(v.name) else if readable then old(current) else None
      ensures versions != [] && versions[|versions| - 1] == v
    {
      var manifest := if readable then Manifest(current, versions) else EMPTY;
      var kept: seq<Version> := [];
      for i := 0 to |manifest.versions|
        invariant kept == Others(manifest.versions[..i], v.name)
      {
        assert manifest.versions[..i + 1][..i] == manifest.versions[..i];
        if manifest.versions[i].name != v.name {
          kept := kept + [manifest.versions[i]];
        }
      }
      assert manifest.versions[..|manifest.versions|] == manifest.versions;
      manifest := manifest.(versions := kept + [v]);
      if setCurrent {
        manifest := manifest.(current := Some(v.name));
      }
      current, versions := manifest.current, manifest.versions;
    }

    static method FindInManifest(manifest: Manifest, name: string) returns (found: Option<string>)
      ensures found == if Knows(manifest, name) then Some(name) else None
    {
      for i := 0 to |manifest.versions|
        invariant forall j :: 0 <= j < i ==> manifest.versions[j].name != name
      {
        if manifest.versions[i].name == name { return Some(manifest.versions[i].name); }
      }
      return None;
    }

    /** Select a registered version, or refuse and leave the manifest alone. */
    method Rollback(name: string, fileExists: bool, readable: bool) returns (done: bool)
      modifies this
      ensures done <==> CanRollBack(Loaded(old(Value()), readable), name, fileExists)
      ensures Value() == if done then RolledBack(old(Value()), name, fileExists) else old(Value())
      ensures versions == old(versions) && current == if done then Some(name) else old(current)
      ensures done <==>
        && readable && fileExists
        && exists i :: 0 <= i < |old(versions)| && old(versions)[i].name == name
    {
      var manifest := if readable then Manifest(current, versions) else EMPTY;
      var trusted := FindInManifest(manifest, name);
      if trusted.None? || !fileExists { return false; }
      manifest := manifest.(current := trusted);
      current, versions := manifest.current, manifest.versions;
      return true;
    }

    /** Newest registration first. */
    method ListVersions(readable: bool) returns (list: seq<Version>)
      ensures list == Reverse(Loaded(Value(), readable).versions)
    {
      var manifest := if readable then Manifest(current, versions) else EMPTY;
      list := [];
      for i := 0 to |manifest.versions|
        invariant list == Reverse(manifest.versions[..i])
      {
        assert manifest.versions[..i + 1][..i] == manifest.versions[..i];
        list := [manifest.versions[i]] + list;
      }
      assert manifest.versions[..|manifest.versions|] == manifest.versions;
    }
  }
}
