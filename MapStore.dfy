/**
 * The in-memory map store: the keyed tables of systems and planets, the trade
 * commodities and the "unsaved changes" flag.  The identity-editing methods
 * change the tables in place, step by step as Map.cpp does (insert, copy,
 * erase, set a field), and each is proved to leave exactly the tables that the
 * corresponding function of MapEdits describes.
 */
module MapStore {
  import opened Records
  import opened Prices
  import opened MapEdits

  class Map {
    var systems: map<string, System>
    var planets: map<string, Planet>
    var commodities: seq<Commodity>
    var isChanged: bool

    /** An empty map with no unsaved changes. */
    constructor ()
      ensures systems == map[] && planets == map[] && commodities == [] && !isChanged
    {
      systems, planets, commodities, isChanged := map[], map[], [], false;
    }

    /** The two keyed tables. */
    function Snapshot(): Tables
      reads this
    {
      Tables(systems, planets)
    }

    /** Map::SetChanged. */
    method SetChanged(changed: bool)
      modifies this
      ensures IsChanged() == changed
      ensures systems == old(systems) && planets == old(planets) && commodities == old(commodities)
    {
      isChanged := changed;
    }

    /** Map::IsChanged. */
    function IsChanged(): bool
      reads this
    {
      isChanged
    }

    /** Map::RenameSystem: move the system to key `to`, then fix the links of its neighbours. */
    method RenameSystem(from: string, to: string)
      modifies this
      ensures systems == RenamedSystems(old(systems), from, to)
      ensures planets == old(planets) && commodities == old(commodities) && isChanged == old(isChanged)
    {
      if to in systems || from !in systems {
        return;
      }
      systems := systems[to := systems[from]];
      systems := systems[to := systems[to].(name := to)];

      var links := systems[from].links;
      ghost var start := systems;
      assert start == old(systems)[to := old(systems)[from].(name := to)];
      var i := 0;
      while i < |links|
        invariant 0 <= i <= |links|
        invariant systems.Keys == start.Keys
        invariant planets == old(planets) && commodities == old(commodities) && isChanged == old(isChanged)
        invariant RewriteLinks(systems, links[i..], from, to) == RewriteLinks(start, links, from, to)
      {
        var link := links[i];
        if link in systems {
          systems := systems[link := ChangeLink(systems[link], from, to)];
        }
        i := i + 1;
      }
      assert links[i..] == [];

      systems := systems - {from};
    }

    /**
     * One pass of RenamePlanet's wormhole loop: in system `s`, the first object
     * other than `ref` that hosts `planet` is made to host `name`.
     */
    method RenameFirstOther(s: string, planet: string, name: string, ref: ObjRef)
      modifies this
      ensures systems == MapEdits.RenameFirstOther(old(systems), s, planet, name, ref)
      ensures planets == old(planets) && commodities == old(commodities) && isChanged == old(isChanged)
    {
      if s in systems {
        var objects := systems[s].objects;
        var skip := SkipIn(s, ref);
        // Find the first other object hosting the planet; rename it and stop.
        var j := 0;
        while j < |objects| && !(objects[j].planet == planet && j != skip)
          invariant 0 <= j <= |objects|
          invariant FirstOther(objects, planet, skip, j) == FirstOther(objects, planet, skip, 0)
        {
          j := j + 1;
        }
        if j < |objects| {
          systems := systems[s := systems[s].(objects := objects[j := objects[j].(planet := name)])];
        }
      }
    }

    /**
     * Map::RenamePlanet: rename the other objects of the planet's wormhole path,
     * move the planet record to `name`, name it, and re-point the object.
     */
    method RenamePlanet(obj: Option<ObjRef>, name: string)
      requires LiveObject(systems, obj)
      modifies this
      ensures Snapshot() == RenamedPlanet(old(Snapshot()), obj, name)
      ensures commodities == old(commodities) && isChanged == old(isChanged)
    {
      if obj.None? || name == "" {
        return;
      }
      var ref := obj.value;
      var cur := systems[ref.sys].objects[ref.idx].planet;
      if cur in planets {
        var ws := WormholeSystems(planets[cur]);
        ghost var target := RenameOthers(systems, ws, cur, name, ref);
        var i := 0;
        while i < |ws|
          invariant 0 <= i <= |ws|
          invariant ValidRef(systems, ref) && PlanetOf(systems, ref) == cur
          invariant RenameOthers(systems, ws[i..], cur, name, ref) == target
          invariant planets == old(planets) && commodities == old(commodities) && isChanged == old(isChanged)
        {
          RenameFirstOther(ws[i], cur, name, ref);
          i := i + 1;
        }

        planets := planets[name := planets[cur]];
        planets := planets - {cur};
      }
      planets := planets[name := PlanetAt(planets, name).(name := name)];
      systems := WithPlanetOf(systems, ref, name);
    }

    /** Map::LinkToPlanet: make the object host the existing planet `name` (a wormhole or ringworld). */
    method LinkToPlanet(obj: Option<ObjRef>, system: Option<string>, name: string)
      requires LiveObject(systems, obj) && LiveSystem(systems, system)
      modifies this
      ensures Snapshot() == LinkedToPlanet(old(Snapshot()), obj, system, name)
      ensures commodities == old(commodities) && isChanged == old(isChanged)
    {
      if obj.None? || system.None? || name == "" || name !in planets {
        return;
      }
      var ref, sys := obj.value, system.value;
      var cur := systems[ref.sys].objects[ref.idx].planet;
      ghost var detached := Detached(planets, systems[sys], sys, cur);
      if cur in planets && PlanetCount(systems[sys], cur) == 1 {
        planets := planets[cur := RemoveSystem(planets[cur], sys)];
      }
      assert planets == detached;
      systems := WithPlanetOf(systems, ref, name);
      planets := planets[name := AddSystem(planets[name], sys)];
    }

    /** Map::RelinkObject: split the object off onto the planet `newName`, new or existing. */
    method RelinkObject(obj: Option<ObjRef>, system: Option<string>, newName: string)
      requires LiveObject(systems, obj) && LiveSystem(systems, system)
      modifies this
      ensures Snapshot() == RelinkedObject(old(Snapshot()), obj, system, newName)
      ensures commodities == old(commodities) && isChanged == old(isChanged)
    {
      if obj.None? || system.None? || systems[obj.value.sys].objects[obj.value.idx].planet !in planets {
        return;
      }
      if newName in planets {
        LinkToPlanet(obj, system, newName);
        return;
      }
      var ref, sys := obj.value, system.value;
      var cur := systems[ref.sys].objects[ref.idx].planet;
      ghost var detached := Detached(planets, systems[sys], sys, cur);
      if PlanetCount(systems[sys], cur) == 1 {
        planets := planets[cur := RemoveSystem(planets[cur], sys)];
      }
      assert planets == detached;
      if newName != "" {
        var planet := DefaultPlanet.(name := newName);
        planets := planets[newName := AddSystem(planet, sys)];
      }
      systems := WithPlanetOf(systems, ref, newName);
    }
  }
}
