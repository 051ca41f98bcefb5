/**
 * What the identity-editing operations of the map store do to its two keyed
 * tables, stated as functions on values: the systems table and the planets
 * table.  The class Map in MapStore.dfy performs the same edits in place and is
 * proved to end in exactly the state these functions give.
 *
 * Pointers become keys: a system is named by its key in the systems table, a
 * stellar object by its system's key and its position in that system, and a
 * null pointer by None.
 */
module MapEdits {
  import opened Records

  /** A stellar object: the key of its system and its position among the system's objects. */
  datatype ObjRef = ObjRef(sys: string, idx: nat)

  /** The map's systems and planets, each keyed by name. */
  datatype Tables = Tables(systems: map<string, System>, planets: map<string, Planet>)

  predicate ValidRef(systems: map<string, System>, r: ObjRef)
  {
    r.sys in systems && r.idx < |systems[r.sys].objects|
  }

  /** A non-null object pointer points at an object of the table. */
  predicate LiveObject(systems: map<string, System>, obj: Option<ObjRef>)
  {
    obj.Some? ==> ValidRef(systems, obj.value)
  }

  /** A non-null system pointer points at a system of the table. */
  predicate LiveSystem(systems: map<string, System>, system: Option<string>)
  {
    system.Some? ==> system.value in systems
  }

  /** StellarObject::GetPlanet. */
  function PlanetOf(systems: map<string, System>, r: ObjRef): string
    requires ValidRef(systems, r)
  {
    systems[r.sys].objects[r.idx].planet
  }

  /** The same systems, with the same names, links and number of objects; only objects' planets may differ. */
  predicate SameLayout(a: map<string, System>, b: map<string, System>)
  {
    && a.Keys == b.Keys
    && forall s :: s in a ==>
         && |b[s].objects| == |a[s].objects|
         && b[s].name == a[s].name
         && b[s].links == a[s].links
  }

  /** StellarObject::SetPlanet on the object `r`: it now hosts `name`, and no other object changes. */
  function WithPlanetOf(systems: map<string, System>, r: ObjRef, name: string): (m: map<string, System>)
    requires ValidRef(systems, r)
    ensures SameLayout(systems, m)
    ensures PlanetOf(m, r) == name
    ensures forall s, i :: s in systems && 0 <= i < |systems[s].objects| && (s != r.sys || i != r.idx) ==>
              m[s].objects[i] == systems[s].objects[i]
  {
    var sys := systems[r.sys];
    systems[r.sys := sys.(objects := sys.objects[r.idx := sys.objects[r.idx].(planet := name)])]
  }

  /** No planet lists a system twice (Planet::AddSystem never adds a duplicate). */
  predicate Consistent(t: Tables)
  {
    forall k :: k in t.planets ==> NoDuplicates(t.planets[k].systems)
  }

  // ------------------------------------------------------------ RenameSystem

  /** systems[link].ChangeLink(from, to), when `link` is a key of the table. */
  function ChangeLinkAt(m: map<string, System>, link: string, from: string, to: string): map<string, System>
  {
    if link in m then m[link := ChangeLink(m[link], from, to)] else m
  }

  /** The loop over a system's links: each link that names a system of the table has `from` changed to `to`. */
  function RewriteLinks(m: map<string, System>, links: seq<string>, from: string, to: string): (r: map<string, System>)
    ensures r.Keys == m.Keys
    decreases |links|
  {
    if links == [] then m
    else RewriteLinks(ChangeLinkAt(m, links[0], from, to), links[1..], from, to)
  }

  /** After the loop, a system has had its link changed exactly when it was one of the links. */
  lemma {:induction false} RewriteLinksAt(m: map<string, System>, links: seq<string>, from: string, to: string, k: string)
    requires k in m
    ensures RewriteLinks(m, links, from, to)[k] == if k in links then ChangeLink(m[k], from, to) else m[k]
  {
    if links != [] {
      var m1 := ChangeLinkAt(m, links[0], from, to);
      RewriteLinksAt(m1, links[1..], from, to, k);
      assert k in links <==> k == links[0] || k in links[1..];
      if k == links[0] {
        ChangeLinkIdempotent(m[k], from, to);
      }
    }
  }

  /**
   * Map::RenameSystem on the systems table: nothing happens if `to` is taken or
   * `from` is missing; otherwise the system moves from key `from` to key `to`
   * with its name set to `to`, and every system it links to that is in the
   * table has its link to `from` changed to `to`.
   */
  function RenamedSystems(m: map<string, System>, from: string, to: string): (r: map<string, System>)
    ensures to in m || from !in m ==> r == m
    ensures from == to ==> r == m
    ensures from in m && to !in m ==> r.Keys == m.Keys - {from} + {to}
  {
    if to in m || from !in m then m
    else RewriteLinks(m[to := m[from].(name := to)], m[from].links, from, to) - {from}
  }

  /**
   * What a successful RenameSystem does to each entry: the entry under `to` is
   * the old system renamed; every other remaining entry is unchanged except
   * that, when it is one of the renamed system's links, its link to `from` now
   * names `to`.  (Should the renamed system list `to` among its own links, it
   * is visited too.)
   */
  lemma RenameSystemEffect(m: map<string, System>, from: string, to: string)
    requires from in m && to !in m
    ensures var r := RenamedSystems(m, from, to);
            var renamed := m[from].(name := to);
            && r.Keys == m.Keys - {from} + {to}
            && r[to] == (if to in m[from].links then ChangeLink(renamed, from, to) else renamed)
            && forall k :: k in r && k != to ==>
                 r[k] == if k in m[from].links then ChangeLink(m[k], from, to) else m[k]
  {
    var m1 := m[to := m[from].(name := to)];
    RewriteLinksAt(m1, m[from].links, from, to, to);
    forall k | k in RenamedSystems(m, from, to) && k != to
      ensures RenamedSystems(m, from, to)[k] == if k in m[from].links then ChangeLink(m[k], from, to) else m[k]
    {
      RewriteLinksAt(m1, m[from].links, from, to, k);
    }
  }

  /**
   * The renamed system keeps its objects and keeps every link, including links
   * to systems outside the table; only its name changes (its links change too
   * only in the odd case that it links to a system named `to`).
   */
  lemma RenameSystemKeepsLinks(m: map<string, System>, from: string, to: string)
    requires from in m && to !in m && to !in m[from].links
    ensures var r := RenamedSystems(m, from, to);
            r[to].name == to && r[to].links == m[from].links && r[to].objects == m[from].objects
  {
    RewriteLinksAt(m[to := m[from].(name := to)], m[from].links, from, to, to);
  }

  /** A system that is not among the renamed system's links keeps its record. */
  lemma RenameSystemLeavesUnlinked(m: map<string, System>, from: string, to: string, k: string)
    requires from in m && to !in m
    requires k in m && k != from && k !in m[from].links
    ensures k in RenamedSystems(m, from, to) && RenamedSystems(m, from, to)[k] == m[k]
  {
    RewriteLinksAt(m[to := m[from].(name := to)], m[from].links, from, to, k);
  }

  /** A linked system of the table no longer links to `from`: its link names `to`. */
  lemma RenameSystemRedirectsLinks(m: map<string, System>, from: string, to: string, k: string)
    requires from in m && to !in m
    requires k in m && k != from && k in m[from].links
    ensures k in RenamedSystems(m, from, to)
    ensures from !in RenamedSystems(m, from, to)[k].links
    ensures from in m[k].links ==> to in RenamedSystems(m, from, to)[k].links
  {
    RewriteLinksAt(m[to := m[from].(name := to)], m[from].links, from, to, k);
    if from in m[k].links {
      var i :| 0 <= i < |m[k].links| && m[k].links[i] == from;
      assert ReplaceLink(m[k].links, from, to)[i] == to;
    }
  }

  // ------------------------------------------------------------ RenamePlanet

  /** The first position at or after `from` whose object hosts `planet`, position `skip` excepted. */
  function FirstOther(objects: seq<StellarObject>, planet: string, skip: int, from: nat): (r: Option<nat>)
    requires from <= |objects|
    ensures r.Some? ==> from <= r.value < |objects| && objects[r.value].planet == planet && r.value != skip
    ensures r.Some? ==> forall j :: from <= j < r.value ==> objects[j].planet != planet || j == skip
    ensures r.None? <==> forall j :: from <= j < |objects| ==> objects[j].planet != planet || j == skip
    decreases |objects| - from
  {
    if from == |objects| then None
    else if objects[from].planet == planet && from != skip then Some(from)
    else FirstOther(objects, planet, skip, from + 1)
  }

  /** The position `object` takes in system `s`, or -1 when it is in another system. */
  function SkipIn(s: string, obj: ObjRef): int
  {
    if s == obj.sys then obj.idx else -1
  }

  /** One pass of the wormhole loop: in system `s`, the first object other than `object` that hosts `planet` now hosts `name`. */
  function RenameFirstOther(m: map<string, System>, s: string, planet: string, name: string, obj: ObjRef): (r: map<string, System>)
    ensures SameLayout(m, r)
    ensures forall k :: k in m && k != s ==> r[k] == m[k]
  {
    if s !in m then m
    else
      var objects := m[s].objects;
      match FirstOther(objects, planet, SkipIn(s, obj), 0)
      case None => m
      case Some(j) => m[s := m[s].(objects := objects[j := objects[j].(planet := name)])]
  }

  /** The wormhole loop over the systems `ws`, in order. */
  function RenameOthers(m: map<string, System>, ws: seq<string>, planet: string, name: string, obj: ObjRef): (r: map<string, System>)
    ensures SameLayout(m, r)
    decreases |ws|
  {
    if ws == [] then m
    else RenameOthers(RenameFirstOther(m, ws[0], planet, name, obj), ws[1..], planet, name, obj)
  }

  /** With no system listed twice, each system's objects end as one pass over that system leaves them. */
  lemma {:induction false} RenameOthersAt(m: map<string, System>, ws: seq<string>, planet: string, name: string, obj: ObjRef, s: string)
    requires s in m && NoDuplicates(ws)
    ensures RenameOthers(m, ws, planet, name, obj)[s] ==
            if s in ws then RenameFirstOther(m, s, planet, name, obj)[s] else m[s]
  {
    if ws != [] {
      var m1 := RenameFirstOther(m, ws[0], planet, name, obj);
      assert NoDuplicates(ws[1..]);
      RenameOthersAt(m1, ws[1..], planet, name, obj, s);
      if s == ws[0] {
        assert s !in ws[1..];
      } else {
        assert m1[s] == m[s];
        assert s in ws <==> s in ws[1..];
      }
    }
  }

  /**
   * Map::RenamePlanet: nothing happens for a null object or an empty name.
   * Otherwise, if the object's planet exists, in each system of that planet's
   * wormhole path the first other object hosting it is renamed, and the record
   * moves to key `name` (the old key is erased, which loses the record when
   * `name` is the current name); finally `planets[name]` (created if missing)
   * gets the name `name` and the object hosts `name`.
   */
  function RenamedPlanet(t: Tables, obj: Option<ObjRef>, name: string): (r: Tables)
    requires LiveObject(t.systems, obj)
    ensures SameLayout(t.systems, r.systems)
    ensures obj.None? || name == "" ==> r == t
    ensures obj.Some? && name != "" ==>
              var cur := PlanetOf(t.systems, obj.value);
              && PlanetOf(r.systems, obj.value) == name
              && name in r.planets && r.planets[name].name == name
              && (cur in t.planets && cur != name ==>
                    r.planets.Keys == t.planets.Keys - {cur} + {name} &&
                    r.planets[name] == t.planets[cur].(name := name))
              && (cur in t.planets && cur == name ==>
                    r.planets.Keys == t.planets.Keys && r.planets[name] == DefaultPlanet.(name := name))
              && (cur !in t.planets ==>
                    r.planets.Keys == t.planets.Keys + {name} &&
                    r.planets[name] == PlanetAt(t.planets, name).(name := name) &&
                    r.systems == WithPlanetOf(t.systems, obj.value, name))
              && forall k :: k in r.planets && k != name ==> k in t.planets && k != cur && r.planets[k] == t.planets[k]
  {
    if obj.None? || name == "" then t
    else
      var ref := obj.value;
      var cur := PlanetOf(t.systems, ref);
      var systems1 := if cur in t.planets then RenameOthers(t.systems, WormholeSystems(t.planets[cur]), cur, name, ref)
                      else t.systems;
      var planets1 := if cur in t.planets then t.planets[name := t.planets[cur]] - {cur} else t.planets;
      Tables(WithPlanetOf(systems1, ref, name), planets1[name := PlanetAt(planets1, name).(name := name)])
  }

  /**
   * In every system, the objects RenamePlanet changes besides the object itself
   * are at most one: the first other object of a system of the old planet's
   * wormhole path that hosted the old planet, which now hosts `name`.
   */
  lemma RenamePlanetRenamesAtMostOneOther(t: Tables, ref: ObjRef, name: string, s: string)
    requires ValidRef(t.systems, ref) && name != "" && s in t.systems
    requires Consistent(t)
    ensures var r := RenamedPlanet(t, Some(ref), name);
            var cur := PlanetOf(t.systems, ref);
            var before := t.systems[s].objects;
            var first := FirstOther(before, cur, SkipIn(s, ref), 0);
            && (forall i :: 0 <= i < |before| && i != SkipIn(s, ref) && r.systems[s].objects[i] != before[i] ==>
                  cur in t.planets && s in WormholeSystems(t.planets[cur]) && first == Some(i) &&
                  before[i].planet == cur && r.systems[s].objects[i].planet == name)
            && (cur in t.planets && s in WormholeSystems(t.planets[cur]) && first.Some? ==>
                  r.systems[s].objects[first.value].planet == name)
  {
    var cur := PlanetOf(t.systems, ref);
    if cur in t.planets {
      var ws := WormholeSystems(t.planets[cur]);
      RenameOthersAt(t.systems, ws, cur, name, ref, s);
    }
  }

  /** Corollary: two objects other than the renamed one that both changed are the same object. */
  lemma RenamePlanetChangesOneOtherPerSystem(t: Tables, ref: ObjRef, name: string, s: string, i: nat, j: nat)
    requires ValidRef(t.systems, ref) && name != "" && s in t.systems && Consistent(t)
    requires i < |t.systems[s].objects| && j < |t.systems[s].objects|
    requires i != SkipIn(s, ref) && j != SkipIn(s, ref)
    requires RenamedPlanet(t, Some(ref), name).systems[s].objects[i] != t.systems[s].objects[i]
    requires RenamedPlanet(t, Some(ref), name).systems[s].objects[j] != t.systems[s].objects[j]
    ensures i == j
  {
    RenamePlanetRenamesAtMostOneOther(t, ref, name, s);
  }

  // ------------------------------------------------------------ LinkToPlanet

  /** The old planet leaves `sysKey` when the object was its only host there. */
  function Detached(planets: map<string, Planet>, system: System, sysKey: string, cur: string): (r: map<string, Planet>)
    ensures r.Keys == planets.Keys
    ensures forall k :: k in planets && k != cur ==> r[k] == planets[k]
    ensures cur in planets ==>
              r[cur].(systems := planets[cur].systems) == planets[cur] &&
              (IsInSystem(r[cur], sysKey) <==> IsInSystem(planets[cur], sysKey) && PlanetCount(system, cur) != 1)
  {
    if cur in planets && PlanetCount(system, cur) == 1 then planets[cur := RemoveSystem(planets[cur], sysKey)]
    else planets
  }

  /**
   * Map::LinkToPlanet: nothing happens unless the object and system are given
   * and `name` is a non-empty existing planet.  Otherwise the old planet (never
   * erased) leaves the system if the object was its only host there, the
   * object hosts `name`, and `name`'s planet is in the system.
   */
  function LinkedToPlanet(t: Tables, obj: Option<ObjRef>, system: Option<string>, name: string): (r: Tables)
    requires LiveObject(t.systems, obj) && LiveSystem(t.systems, system)
    ensures SameLayout(t.systems, r.systems)
    ensures r.planets.Keys == t.planets.Keys
    ensures !(obj.Some? && system.Some? && name != "" && name in t.planets) ==> r == t
    ensures obj.Some? && system.Some? && name != "" && name in t.planets ==>
              var cur := PlanetOf(t.systems, obj.value);
              var sys := system.value;
              && r.systems == WithPlanetOf(t.systems, obj.value, name)
              && IsInSystem(r.planets[name], sys)
              && (cur != name ==> r.planets[name] == AddSystem(t.planets[name], sys))
              && (cur in t.planets && cur != name ==>
                    r.planets[cur].(systems := t.planets[cur].systems) == t.planets[cur] &&
                    (IsInSystem(r.planets[cur], sys) <==>
                       IsInSystem(t.planets[cur], sys) && PlanetCount(t.systems[sys], cur) != 1))
              && forall k :: k in t.planets && k != name && k != cur ==> r.planets[k] == t.planets[k]
  {
    if obj.None? || system.None? || name == "" || name !in t.planets then t
    else
      var ref, sys := obj.value, system.value;
      var planets1 := Detached(t.planets, t.systems[sys], sys, PlanetOf(t.systems, ref));
      Tables(WithPlanetOf(t.systems, ref, name), planets1[name := AddSystem(planets1[name], sys)])
  }

  // ------------------------------------------------------------ RelinkObject

  /**
   * Map::RelinkObject: nothing happens unless the object and system are given
   * and the object's planet exists.  If `newName` exists this is LinkToPlanet.
   * Otherwise the old planet (never erased) leaves the system if the object
   * was its only host there, a non-empty `newName` gets a fresh planet of that
   * name in this system, and the object hosts `newName`, even an empty one.
   */
  function RelinkedObject(t: Tables, obj: Option<ObjRef>, system: Option<string>, newName: string): (r: Tables)
    requires LiveObject(t.systems, obj) && LiveSystem(t.systems, system)
    ensures SameLayout(t.systems, r.systems)
    ensures !(obj.Some? && system.Some? && PlanetOf(t.systems, obj.value) in t.planets) ==> r == t
    ensures obj.Some? && system.Some? && PlanetOf(t.systems, obj.value) in t.planets && newName in t.planets ==>
              r == LinkedToPlanet(t, obj, system, newName)
    ensures obj.Some? && system.Some? && PlanetOf(t.systems, obj.value) in t.planets && newName !in t.planets ==>
              var cur := PlanetOf(t.systems, obj.value);
              var sys := system.value;
              && r.systems == WithPlanetOf(t.systems, obj.value, newName)
              && cur in r.planets
              && r.planets[cur].(systems := t.planets[cur].systems) == t.planets[cur]
              && (IsInSystem(r.planets[cur], sys) <==>
                    IsInSystem(t.planets[cur], sys) && PlanetCount(t.systems[sys], cur) != 1)
              && (newName != "" ==>
                    r.planets.Keys == t.planets.Keys + {newName} &&
                    r.planets[newName] == DefaultPlanet.(name := newName, systems := [sys]))
              && (newName == "" ==> r.planets.Keys == t.planets.Keys)
              && forall k :: k in t.planets && k != cur ==> r.planets[k] == t.planets[k]
  {
    if obj.None? || system.None? || PlanetOf(t.systems, obj.value) !in t.planets then t
    else if newName in t.planets then LinkedToPlanet(t, obj, system, newName)
    else
      var ref, sys := obj.value, system.value;
      var planets1 := Detached(t.planets, t.systems[sys], sys, PlanetOf(t.systems, ref));
      var planets2 := if newName != "" then planets1[newName := AddSystem(DefaultPlanet.(name := newName), sys)]
                      else planets1;
      Tables(WithPlanetOf(t.systems, ref, newName), planets2)
  }

  // ------------------------------------------------------------ invariants

  /** RenamePlanet keeps every planet's system list free of duplicates. */
  lemma RenamePlanetConsistent(t: Tables, obj: Option<ObjRef>, name: string)
    requires LiveObject(t.systems, obj) && Consistent(t)
    ensures Consistent(RenamedPlanet(t, obj, name))
  {
    var r := RenamedPlanet(t, obj, name);
    if obj.Some? && name != "" {
      assert NoDuplicates(DefaultPlanet.systems);
      forall k | k in r.planets
        ensures NoDuplicates(r.planets[k].systems)
      {
        var cur := PlanetOf(t.systems, obj.value);
        if k == name && cur !in t.planets && name in t.planets {
          assert r.planets[k].systems == t.planets[name].systems;
        }
      }
    }
  }

  /** LinkToPlanet keeps every planet's system list free of duplicates. */
  lemma LinkToPlanetConsistent(t: Tables, obj: Option<ObjRef>, system: Option<string>, name: string)
    requires LiveObject(t.systems, obj) && LiveSystem(t.systems, system) && Consistent(t)
    ensures Consistent(LinkedToPlanet(t, obj, system, name))
  {
    if obj.Some? && system.Some? && name != "" && name in t.planets {
      var cur := PlanetOf(t.systems, obj.value);
      var sys := system.value;
      var planets1 := Detached(t.planets, t.systems[sys], sys, cur);
      forall k | k in planets1
        ensures NoDuplicates(planets1[k].systems)
      {
      }
    }
  }

  /** RelinkObject keeps every planet's system list free of duplicates. */
  lemma RelinkObjectConsistent(t: Tables, obj: Option<ObjRef>, system: Option<string>, newName: string)
    requires LiveObject(t.systems, obj) && LiveSystem(t.systems, system) && Consistent(t)
    ensures Consistent(RelinkedObject(t, obj, system, newName))
  {
    if obj.Some? && system.Some? && PlanetOf(t.systems, obj.value) in t.planets {
      if newName in t.planets {
        LinkToPlanetConsistent(t, obj, system, newName);
      } else {
      }
    }
  }
}
