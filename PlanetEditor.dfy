/**
 * The editing logic of the planet panel, without its widgets: the panel holds
 * the selected stellar object and its system, turns what the user typed into
 * edits of the selected planet, and marks the map changed only when a value
 * really changed.  The text of a widget is a parameter of its handler, and the
 * buttons the user presses in the question dialogs are parameters of
 * NameChanged.
 */
module PlanetEditor {
  import opened Records
  import opened MapEdits
  import opened MapStore
  import opened FieldText

  /** The button a question dialog was closed with (closing it counts as Cancel). */
  datatype Answer = Yes | No | Cancel

  /** Where NameChanged sends a typed planet name. */
  datatype Route =
    | Unchanged  // no object, or the name is the object's current planet
    | Aborted    // a question was not answered as required: the old name is shown again
    | Relinked   // Map::RelinkObject
    | Linked     // Map::LinkToPlanet
    | Renamed    // Map::RenamePlanet

  /** A planets table together with the "unsaved changes" flag. */
  datatype Stored = Stored(planets: map<string, Planet>, changed: bool)

  /**
   * The effect of a field handler on the record under `key`: the record
   * (created by `planets[key]` if missing) becomes `updated`, and the map is
   * marked changed exactly when that differs from the record that was there.
   */
  function StoreEdit(planets: map<string, Planet>, dirty: bool, key: string, updated: Planet): (r: Stored)
    ensures r.planets.Keys == planets.Keys + {key}
    ensures r.planets[key] == updated
    ensures forall k :: k in planets && k != key ==> r.planets[k] == planets[k]
    ensures r.changed <==> dirty || PlanetAt(planets, key) != updated
    ensures key in planets && planets[key] == updated ==> r == Stored(planets, dirty)
  {
    Stored(planets[key := updated], dirty || PlanetAt(planets, key) != updated)
  }

  /** Confirming a field a second time with the same value changes nothing and marks nothing. */
  lemma StoreEditIdempotent(planets: map<string, Planet>, dirty: bool, key: string, updated: Planet)
    ensures var once := StoreEdit(planets, dirty, key, updated);
            StoreEdit(once.planets, false, key, updated) == Stored(once.planets, false)
  {
  }

  /**
   * Confirming the list text the panel shows for a planet whose attributes are
   * plain items leaves the planet and the flag as they are.
   */
  lemma ConfirmShownAttributes(planets: map<string, Planet>, dirty: bool, key: string)
    requires key in planets
    requires forall i :: 0 <= i < |planets[key].attributes| ==> PlainItem(planets[key].attributes[i])
    ensures var p := planets[key];
            StoreEdit(planets, dirty, key, p.(attributes := Tokens(Joined(p.attributes)))) == Stored(planets, dirty)
  {
    ToListOfToString(planets[key].attributes);
  }

  /** The relink question is asked: the old planet exists and is a wormhole or has several objects in this system. */
  predicate AsksToUpdateAll(t: Tables, ref: ObjRef, sys: string)
    requires ValidRef(t.systems, ref) && sys in t.systems
    ensures AsksToUpdateAll(t, ref, sys) ==> PlanetOf(t.systems, ref) != "" && PlanetOf(t.systems, ref) in t.planets
  {
    var cur := PlanetOf(t.systems, ref);
    cur != "" && cur in t.planets && (IsWormhole(t.planets[cur]) || PlanetCount(t.systems[sys], cur) > 1)
  }

  /**
   * For an object of the panel's system, the relink question is asked exactly
   * when the old planet exists and is a wormhole, or another object of this
   * system hosts it too.
   */
  lemma UpdateAllAskedForSharedPlanet(t: Tables, ref: ObjRef)
    requires ValidRef(t.systems, ref)
    ensures var cur := PlanetOf(t.systems, ref);
            var objects := t.systems[ref.sys].objects;
            AsksToUpdateAll(t, ref, ref.sys) <==>
              cur != "" && cur in t.planets &&
              (IsWormhole(t.planets[cur]) ||
               exists k :: 0 <= k < |objects| && k != ref.idx && objects[k].planet == cur)
  {
    var cur := PlanetOf(t.systems, ref);
    var objects := t.systems[ref.sys].objects;
    SoleHost(objects, cur, ref.idx);
  }

  /** The panel's selection refers to the map: an object (or none) and a system (or none). */
  predicate Selected(t: Tables, obj: Option<ObjRef>, system: Option<string>)
  {
    LiveObject(t.systems, obj) && LiveSystem(t.systems, system)
  }

  /** A selected object comes with its system, as NameChanged needs. */
  predicate SystemGiven(obj: Option<ObjRef>, system: Option<string>)
  {
    obj.Some? ==> system.Some?
  }

  /**
   * The decision PlanetView::NameChanged takes for the typed name `text`, given
   * the answers to its three questions: whether to share a system's name,
   * whether to update all objects of the planet, whether to join an existing
   * planet.
   */
  function NameRoute(t: Tables, obj: Option<ObjRef>, system: Option<string>, text: string,
                     sharedName: Answer, updateAll: Answer, linkExisting: Answer): (r: Route)
    requires Selected(t, obj, system) && SystemGiven(obj, system)
    ensures r == Unchanged <==> obj.None? || PlanetOf(t.systems, obj.value) == text
    ensures obj.Some? && PlanetOf(t.systems, obj.value) != "" && text == "" ==> r != Unchanged
    ensures r != Unchanged && text in t.systems && sharedName != Yes ==> r == Aborted
    ensures r == Relinked <==>
              r != Unchanged && (text !in t.systems || sharedName == Yes) &&
              AsksToUpdateAll(t, obj.value, system.value) && updateAll == No
    ensures (r != Unchanged && (text !in t.systems || sharedName == Yes) &&
             AsksToUpdateAll(t, obj.value, system.value) && updateAll == Cancel) ==> r == Aborted
    ensures r == Linked ==> text in t.planets && linkExisting == Yes
    ensures r == Renamed ==> text !in t.planets
    ensures (r != Unchanged && (text !in t.systems || sharedName == Yes) &&
             (!AsksToUpdateAll(t, obj.value, system.value) || updateAll == Yes)) ==>
              r == (if text !in t.planets then Renamed else if linkExisting == Yes then Linked else Aborted)
  {
    if obj.None? || PlanetOf(t.systems, obj.value) == text then Unchanged
    else if text in t.systems && sharedName != Yes then Aborted
    else if AsksToUpdateAll(t, obj.value, system.value) && updateAll == No then Relinked
    else if AsksToUpdateAll(t, obj.value, system.value) && updateAll != Yes then Aborted
    else if text !in t.planets then Renamed
    else if linkExisting == Yes then Linked
    else Aborted
  }

  /** `planets[key].AddSystem(sys)`, creating the record if missing. */
  function WithSystemAdded(t: Tables, key: string, sys: string): (r: Tables)
    ensures r.systems == t.systems
    ensures r.planets.Keys == t.planets.Keys + {key}
    ensures IsInSystem(r.planets[key], sys)
    ensures forall s :: IsInSystem(r.planets[key], s) <==> s == sys || IsInSystem(PlanetAt(t.planets, key), s)
    ensures r.planets[key].(systems := PlanetAt(t.planets, key).systems) == PlanetAt(t.planets, key)
    ensures forall k :: k in t.planets && k != key ==> r.planets[k] == t.planets[k]
  {
    t.(planets := t.planets[key := AddSystem(PlanetAt(t.planets, key), sys)])
  }

  /** The tables after NameChanged has followed `route`. */
  function AfterNameChange(t: Tables, obj: Option<ObjRef>, system: Option<string>, text: string, route: Route): (r: Tables)
    requires Selected(t, obj, system) && SystemGiven(obj, system)
    requires route != Unchanged && route != Aborted ==> obj.Some?
    ensures SameLayout(t.systems, r.systems)
    ensures route == Unchanged || route == Aborted ==> r == t
  {
    match route
    case Unchanged => t
    case Aborted => t
    case Relinked => WithSystemAdded(RelinkedObject(t, obj, system, text), text, system.value)
    case Linked => WithSystemAdded(LinkedToPlanet(t, obj, system, text), text, system.value)
    case Renamed => WithSystemAdded(RenamedPlanet(t, obj, text), text, system.value)
  }

  /** AfterNameChange is the Map operation of the route followed by adding the system to the planet `text`. */
  lemma FollowedRoute(t: Tables, obj: Option<ObjRef>, system: Option<string>, text: string, route: Route, t1: Tables)
    requires Selected(t, obj, system) && SystemGiven(obj, system) && obj.Some?
    requires route == Relinked ==> t1 == RelinkedObject(t, obj, system, text)
    requires route == Linked ==> t1 == LinkedToPlanet(t, obj, system, text)
    requires route == Renamed ==> t1 == RenamedPlanet(t, obj, text)
    requires route in {Relinked, Linked, Renamed}
    ensures AfterNameChange(t, obj, system, text, route) == WithSystemAdded(t1, text, system.value)
    ensures Selected(t1, obj, system)
  {
  }

  /**
   * On every path that is not aborted, the planet named `text` exists
   * afterwards and is in the panel's system, and the object hosts it unless
   * the name is empty.
   */
  lemma NameChangeCompletes(t: Tables, obj: Option<ObjRef>, system: Option<string>, text: string,
                            sharedName: Answer, updateAll: Answer, linkExisting: Answer)
    requires Selected(t, obj, system) && SystemGiven(obj, system)
    requires NameRoute(t, obj, system, text, sharedName, updateAll, linkExisting) !in {Unchanged, Aborted}
    ensures var r := AfterNameChange(t, obj, system, text, NameRoute(t, obj, system, text, sharedName, updateAll, linkExisting));
            && text in r.planets
            && IsInSystem(r.planets[text], system.value)
            && (text != "" ==> PlanetOf(r.systems, obj.value) == text)
  {
    var route := NameRoute(t, obj, system, text, sharedName, updateAll, linkExisting);
    var ref := obj.value;
    var cur := PlanetOf(t.systems, ref);
    match route
    case Relinked =>
      assert cur in t.planets;
      var t1 := RelinkedObject(t, obj, system, text);
      assert text != "" ==> PlanetOf(t1.systems, ref) == text;
    case Linked =>
      var t1 := LinkedToPlanet(t, obj, system, text);
      assert text != "" ==> PlanetOf(t1.systems, ref) == text;
    case Renamed =>
      var t1 := RenamedPlanet(t, obj, text);
      assert text != "" ==> PlanetOf(t1.systems, ref) == text;
  }

  /**
   * The empty-name guard never acts: typing an empty name for a plain planet
   * leaves the object's planet as it is but creates a record under the empty
   * key, placed in this system.
   */
  lemma EmptyNameMakesBlankRecord(t: Tables, ref: ObjRef, sys: string, sharedName: Answer, updateAll: Answer, linkExisting: Answer)
    requires ValidRef(t.systems, ref) && sys in t.systems
    requires PlanetOf(t.systems, ref) != "" && "" !in t.systems && "" !in t.planets
    requires !AsksToUpdateAll(t, ref, sys)
    ensures var route := NameRoute(t, Some(ref), Some(sys), "", sharedName, updateAll, linkExisting);
            var r := AfterNameChange(t, Some(ref), Some(sys), "", route);
            && route == Renamed
            && r.systems == t.systems
            && r.planets.Keys == t.planets.Keys + {""}
            && r.planets[""] == DefaultPlanet.(systems := [sys])
  {
  }

  /** Adding the system to the planet `key` keeps every planet's system list free of duplicates. */
  lemma WithSystemAddedConsistent(t: Tables, key: string, sys: string)
    requires Consistent(t)
    ensures Consistent(WithSystemAdded(t, key, sys))
  {
    assert NoDuplicates(DefaultPlanet.systems);
    assert NoDuplicates(PlanetAt(t.planets, key).systems);
  }

  /** NameChanged keeps every planet's system list free of duplicates. */
  lemma NameChangeConsistent(t: Tables, obj: Option<ObjRef>, system: Option<string>, text: string, route: Route)
    requires Selected(t, obj, system) && SystemGiven(obj, system) && Consistent(t)
    requires route != Unchanged && route != Aborted ==> obj.Some?
    ensures Consistent(AfterNameChange(t, obj, system, text, route))
  {
    var t1 := t;
    match route
    case Unchanged =>
    case Aborted =>
    case Relinked =>
      RelinkObjectConsistent(t, obj, system, text);
      t1 := RelinkedObject(t, obj, system, text);
    case Linked =>
      LinkToPlanetConsistent(t, obj, system, text);
      t1 := LinkedToPlanet(t, obj, system, text);
    case Renamed =>
      RenamePlanetConsistent(t, obj, text);
      t1 := RenamedPlanet(t, obj, text);
    if route != Unchanged && route != Aborted {
      FollowedRoute(t, obj, system, text, route, t1);
      WithSystemAddedConsistent(t1, text, system.value);
    }
  }

  class PlanetView {
    const mapData: Map
    var obj: Option<ObjRef>
    var system: Option<string>

    /** The selection refers to the map being edited. */
    ghost predicate Valid()
      reads this, mapData
    {
      Selected(mapData.Snapshot(), obj, system)
    }

    /** A panel with nothing selected. */
    constructor (mapData: Map)
      ensures this.mapData == mapData && obj.None? && system.None?
      ensures Valid()
    {
      this.mapData := mapData;
      obj, system := None, None;
    }

    /** PlanetView::SetPlanet, without the widget filling: select an object and its system. */
    method SetPlanet(obj: Option<ObjRef>, system: Option<string>)
      requires Selected(mapData.Snapshot(), obj, system)
      modifies this
      ensures this.obj == obj && this.system == system
      ensures Valid()
    {
      this.obj, this.system := obj, system;
    }

    /** The field handlers act: an object is selected and its planet name is not empty. */
    predicate Editable()
      reads this, mapData
      requires Valid()
    {
      obj.Some? && PlanetOf(mapData.systems, obj.value) != ""
    }

    /** The key of the planet the field handlers edit. */
    function EditedKey(): string
      reads this, mapData
      requires Valid() && Editable()
    {
      PlanetOf(mapData.systems, obj.value)
    }

    /** PlanetView::GovernmentChanged: store the government `text` (the placeholder shown for an empty one is widget state). */
    method GovernmentChanged(text: string)
      requires Valid()
      modifies mapData
      ensures Valid()
      ensures mapData.systems == old(mapData.systems) && mapData.commodities == old(mapData.commodities)
      ensures !old(Editable()) ==> mapData.planets == old(mapData.planets) && mapData.isChanged == old(mapData.isChanged)
      ensures old(Editable()) ==>
                var stored := PlanetAt(old(mapData.planets), old(EditedKey()));
                Stored(mapData.planets, mapData.isChanged) ==
                  StoreEdit(old(mapData.planets), old(mapData.isChanged), old(EditedKey()), stored.(government := text))
    {
      if obj.None? || PlanetOf(mapData.systems, obj.value) == "" {
        return;
      }
      var key := PlanetOf(mapData.systems, obj.value);
      var planet := PlanetAt(mapData.planets, key);
      mapData.planets := mapData.planets[key := planet];
      if planet.government == text {
        return;
      }
      mapData.planets := mapData.planets[key := planet.(government := text)];
      mapData.SetChanged(true);
    }

    /** PlanetView::AttributesChanged: store the attribute list read from `text`. */
    method AttributesChanged(text: string)
      requires Valid()
      modifies mapData
      ensures Valid()
      ensures mapData.systems == old(mapData.systems) && mapData.commodities == old(mapData.commodities)
      ensures !old(Editable()) ==> mapData.planets == old(mapData.planets) && mapData.isChanged == old(mapData.isChanged)
      ensures old(Editable()) ==>
                var stored := PlanetAt(old(mapData.planets), old(EditedKey()));
                Stored(mapData.planets, mapData.isChanged) ==
                  StoreEdit(old(mapData.planets), old(mapData.isChanged), old(EditedKey()), stored.(attributes := Tokens(text)))
    {
      if obj.Some? && PlanetOf(mapData.systems, obj.value) != "" {
        var list := ToList(text);
        var key := PlanetOf(mapData.systems, obj.value);
        var planet := PlanetAt(mapData.planets, key);
        mapData.planets := mapData.planets[key := planet];
        if planet.attributes != list {
          mapData.planets := mapData.planets[key := planet.(attributes := list)];
          mapData.SetChanged(true);
        }
      }
    }

    /** PlanetView::ShipyardChanged: store the shipyard list read from `text`. */
    method ShipyardChanged(text: string)
      requires Valid()
      modifies mapData
      ensures Valid()
      ensures mapData.systems == old(mapData.systems) && mapData.commodities == old(mapData.commodities)
      ensures !old(Editable()) ==> mapData.planets == old(mapData.planets) && mapData.isChanged == old(mapData.isChanged)
      ensures old(Editable()) ==>
                var stored := PlanetAt(old(mapData.planets), old(EditedKey()));
                Stored(mapData.planets, mapData.isChanged) ==
                  StoreEdit(old(mapData.planets), old(mapData.isChanged), old(EditedKey()), stored.(shipyard := Tokens(text)))
    {
      if obj.Some? && PlanetOf(mapData.systems, obj.value) != "" {
        var list := ToList(text);
        var key := PlanetOf(mapData.systems, obj.value);
        var planet := PlanetAt(mapData.planets, key);
        mapData.planets := mapData.planets[key := planet];
        if planet.shipyard != list {
          mapData.planets := mapData.planets[key := planet.(shipyard := list)];
          mapData.SetChanged(true);
        }
      }
    }

    /** PlanetView::OutfitterChanged: store the outfitter list read from `text`. */
    method OutfitterChanged(text: string)
      requires Valid()
      modifies mapData
      ensures Valid()
      ensures mapData.systems == old(mapData.systems) && mapData.commodities == old(mapData.commodities)
      ensures !old(Editable()) ==> mapData.planets == old(mapData.planets) && mapData.isChanged == old(mapData.isChanged)
      ensures old(Editable()) ==>
                var stored := PlanetAt(old(mapData.planets), old(EditedKey()));
                Stored(mapData.planets, mapData.isChanged) ==
                  StoreEdit(old(mapData.planets), old(mapData.isChanged), old(EditedKey()), stored.(outfitter := Tokens(text)))
    {
      if obj.Some? && PlanetOf(mapData.systems, obj.value) != "" {
        var list := ToList(text);
        var key := PlanetOf(mapData.systems, obj.value);
        var planet := PlanetAt(mapData.planets, key);
        mapData.planets := mapData.planets[key := planet];
        if planet.outfitter != list {
          mapData.planets := mapData.planets[key := planet.(outfitter := list)];
          mapData.SetChanged(true);
        }
      }
    }

    /** PlanetView::DescriptionChanged: store the description `text`. */
    method DescriptionChanged(text: string)
      requires Valid()
      modifies mapData
      ensures Valid()
      ensures mapData.systems == old(mapData.systems) && mapData.commodities == old(mapData.commodities)
      ensures !old(Editable()) ==> mapData.planets == old(mapData.planets) && mapData.isChanged == old(mapData.isChanged)
      ensures old(Editable()) ==>
                var stored := PlanetAt(old(mapData.planets), old(EditedKey()));
                Stored(mapData.planets, mapData.isChanged) ==
                  StoreEdit(old(mapData.planets), old(mapData.isChanged), old(EditedKey()), stored.(description := text))
    {
      if obj.Some? && PlanetOf(mapData.systems, obj.value) != "" {
        var key := PlanetOf(mapData.systems, obj.value);
        var planet := PlanetAt(mapData.planets, key);
        mapData.planets := mapData.planets[key := planet];
        if planet.description != text {
          mapData.planets := mapData.planets[key := planet.(description := text)];
          mapData.SetChanged(true);
        }
      }
    }

    /** PlanetView::SpaceportDescriptionChanged: store the spaceport description `text`. */
    method SpaceportDescriptionChanged(text: string)
      requires Valid()
      modifies mapData
      ensures Valid()
      ensures mapData.systems == old(mapData.systems) && mapData.commodities == old(mapData.commodities)
      ensures !old(Editable()) ==> mapData.planets == old(mapData.planets) && mapData.isChanged == old(mapData.isChanged)
      ensures old(Editable()) ==>
                var stored := PlanetAt(old(mapData.planets), old(EditedKey()));
                Stored(mapData.planets, mapData.isChanged) ==
                  StoreEdit(old(mapData.planets), old(mapData.isChanged), old(EditedKey()), stored.(spaceport := text))
    {
      if obj.Some? && PlanetOf(mapData.systems, obj.value) != "" {
        var key := PlanetOf(mapData.systems, obj.value);
        var planet := PlanetAt(mapData.planets, key);
        mapData.planets := mapData.planets[key := planet];
        if planet.spaceport != text {
          mapData.planets := mapData.planets[key := planet.(spaceport := text)];
          mapData.SetChanged(true);
        }
      }
    }

    /** PlanetView::TributeFleetNameChanged: store the tribute fleet name `text`. */
    method TributeFleetNameChanged(text: string)
      requires Valid()
      modifies mapData
      ensures Valid()
      ensures mapData.systems == old(mapData.systems) && mapData.commodities == old(mapData.commodities)
      ensures !old(Editable()) ==> mapData.planets == old(mapData.planets) && mapData.isChanged == old(mapData.isChanged)
      ensures old(Editable()) ==>
                var stored := PlanetAt(old(mapData.planets), old(EditedKey()));
                Stored(mapData.planets, mapData.isChanged) ==
                  StoreEdit(old(mapData.planets), old(mapData.isChanged), old(EditedKey()), stored.(tributeFleetName := text))
    {
      if obj.Some? && PlanetOf(mapData.systems, obj.value) != "" {
        var key := PlanetOf(mapData.systems, obj.value);
        var planet := PlanetAt(mapData.planets, key);
        mapData.planets := mapData.planets[key := planet];
        if planet.tributeFleetName != text {
          mapData.planets := mapData.planets[key := planet.(tributeFleetName := text)];
          mapData.SetChanged(true);
        }
      }
    }

    /**
     * PlanetView::NameChanged for the typed name `text`, the three questions
     * answered by `sharedName`, `updateAll` and `linkExisting`; the route taken
     * is returned (Aborted: the name box shows the old name again).
     */
    method NameChanged(text: string, sharedName: Answer, updateAll: Answer, linkExisting: Answer) returns (route: Route)
      requires Valid() && SystemGiven(obj, system)
      modifies mapData
      ensures Valid()
      ensures route == old(NameRoute(mapData.Snapshot(), obj, system, text, sharedName, updateAll, linkExisting))
      ensures route != Unchanged && route != Aborted ==> obj.Some?
      ensures mapData.Snapshot() == AfterNameChange(old(mapData.Snapshot()), obj, system, text, route)
      ensures mapData.isChanged == (old(mapData.isChanged) || route in {Relinked, Linked, Renamed})
      ensures mapData.commodities == old(mapData.commodities)
    {
      ghost var t0 := mapData.Snapshot();
      ghost var expected := NameRoute(t0, obj, system, text, sharedName, updateAll, linkExisting);
      if obj.None? || PlanetOf(mapData.systems, obj.value) == text {
        return Unchanged;
      }
      // Naming a planet after a system needs confirmation.
      if text in mapData.systems && sharedName != Yes {
        return Aborted;
      }

      var ref, sys := obj.value, system.value;
      var cur := PlanetOf(mapData.systems, ref);
      var relink := cur != "" && cur in mapData.planets &&
                    (IsWormhole(mapData.planets[cur]) || PlanetCount(mapData.systems[sys], cur) > 1);
      assert relink == AsksToUpdateAll(t0, ref, sys);
      if relink {
        relink := updateAll == No;
        if !relink && updateAll != Yes {
          return Aborted;
        }
      }

      var newPlanetExists := !relink && text in mapData.planets;
      if relink {
        mapData.RelinkObject(obj, system, text);
        route := Relinked;
      } else if newPlanetExists {
        if linkExisting == Yes {
          mapData.LinkToPlanet(obj, system, text);
          route := Linked;
        } else {
          return Aborted;
        }
      } else {
        mapData.RenamePlanet(obj, text);
        route := Renamed;
      }
      assert route == expected;
      ghost var t1 := mapData.Snapshot();
      FollowedRoute(t0, obj, system, text, route, t1);

      // Make sure the planet knows it is in this system.
      var planet := PlanetAt(mapData.planets, text);
      mapData.planets := mapData.planets[text := AddSystem(planet, sys)];
      assert mapData.Snapshot() == WithSystemAdded(t1, text, sys);
      mapData.SetChanged(true);
    }
  }
}
