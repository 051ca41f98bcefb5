/**
 * The records the map editor keeps: star systems, the stellar objects inside
 * them, and planets.  A planet is a landing destination; a stellar object in a
 * system refers to the planet it hosts by name, and a planet lists (by key) the
 * systems it appears in.  A planet listed in more than one system is a wormhole;
 * a planet hosted by several objects of one system is a "ringworld".
 *
 * The bodies of System::PlanetCount, System::ChangeLink and the Planet members
 * AddSystem, RemoveSystem, IsInSystem, IsWormhole and WormholeSystems are not
 * part of this model; each is given its simplest definition.  IsInSystem and
 * IsWormhole are a membership test and a size test; the others carry contracts
 * stating what the editor relies on.
 */
module Records {

  datatype Option<T> = None | Some(value: T)

  /** A stellar object; only the name of the planet it hosts is modelled ("" = none). */
  datatype StellarObject = StellarObject(planet: string)

  /** A star system: its name, the names of the systems it links to, and its objects. */
  datatype System = System(name: string, links: seq<string>, objects: seq<StellarObject>)

  /**
   * A planet.  `systems` replaces the ordered vector of system pointers: it
   * holds the keys of the systems the planet appears in, front to back in the
   * direction of wormhole travel.  The NaN-defaulted numeric fields are not
   * modelled.
   */
  datatype Planet = Planet(
    name: string,
    landscape: string,
    description: string,
    spaceport: string,
    government: string,
    tributeFleetName: string,
    attributes: seq<string>,
    shipyard: seq<string>,
    outfitter: seq<string>,
    systems: seq<string>)

  /** A default-constructed planet, as `planets[key]` creates for a missing key. */
  const DefaultPlanet := Planet("", "", "", "", "", "", [], [], [], [])

  /** The record `planets[key]` yields: the stored one, or a default-constructed one. */
  function PlanetAt(planets: map<string, Planet>, key: string): Planet
  {
    if key in planets then planets[key] else DefaultPlanet
  }

  // ---------------------------------------------------------------- systems

  /** How many objects of `objects` host `planet`. */
  function CountHosts(objects: seq<StellarObject>, planet: string): (n: nat)
    ensures n <= |objects|
    ensures n == 0 <==> forall i :: 0 <= i < |objects| ==> objects[i].planet != planet
    ensures n == |objects| <==> forall i :: 0 <= i < |objects| ==> objects[i].planet == planet
  {
    if objects == [] then 0
    else (if objects[0].planet == planet then 1 else 0) + CountHosts(objects[1..], planet)
  }

  /** A count of one means the host at hand is the only one, and a larger count that there is another. */
  lemma {:induction false} SoleHost(objects: seq<StellarObject>, planet: string, j: nat)
    requires j < |objects| && objects[j].planet == planet
    ensures CountHosts(objects, planet) >= 1
    ensures CountHosts(objects, planet) == 1 <==>
            forall k :: 0 <= k < |objects| && k != j ==> objects[k].planet != planet
  {
    var rest := objects[1..];
    if j == 0 {
      assert forall k :: 1 <= k < |objects| ==> objects[k] == rest[k - 1];
    } else {
      SoleHost(rest, planet, j - 1);
      assert forall k :: 1 <= k < |objects| ==> objects[k] == rest[k - 1];
      if objects[0].planet == planet {
        assert CountHosts(rest, planet) != 0 by {
          assert rest[j - 1].planet == planet;
        }
      }
    }
  }

  /** System::PlanetCount: the number of the system's objects that host `planet` (see SoleHost for a count of 1). */
  function PlanetCount(s: System, planet: string): (n: nat)
    ensures n <= |s.objects|
    ensures n == 0 <==> forall i :: 0 <= i < |s.objects| ==> s.objects[i].planet != planet
  {
    CountHosts(s.objects, planet)
  }

  /** Every occurrence of `from` in `links` replaced by `to`, positions kept. */
  function ReplaceLink(links: seq<string>, from: string, to: string): (r: seq<string>)
    ensures |r| == |links|
    ensures forall i :: 0 <= i < |links| && links[i] != from ==> r[i] == links[i]
    ensures forall i :: 0 <= i < |links| && links[i] == from ==> r[i] == to
    ensures from != to ==> from !in r
  {
    if links == [] then []
    else [if links[0] == from then to else links[0]] + ReplaceLink(links[1..], from, to)
  }

  /** System::ChangeLink: the system's link to `from` becomes a link to `to`; name and objects stay. */
  function ChangeLink(s: System, from: string, to: string): (r: System)
    ensures r.name == s.name && r.objects == s.objects
    ensures |r.links| == |s.links|
    ensures forall i :: 0 <= i < |s.links| ==> r.links[i] == if s.links[i] == from then to else s.links[i]
    ensures from in s.links ==> to in r.links
    ensures from != to ==> from !in r.links
  {
    s.(links := ReplaceLink(s.links, from, to))
  }

  /** Changing the same link twice is the same as changing it once. */
  lemma ChangeLinkIdempotent(s: System, from: string, to: string)
    ensures ChangeLink(ChangeLink(s, from, to), from, to) == ChangeLink(s, from, to)
  {
    var once := ReplaceLink(s.links, from, to);
    var twice := ReplaceLink(once, from, to);
    assert |twice| == |once|;
    forall i | 0 <= i < |once|
      ensures twice[i] == once[i]
    {
      if s.links[i] == from { assert once[i] == to; }
    }
  }

  // ---------------------------------------------------------------- planets

  /** Planet::IsInSystem: `system` is one of the systems the planet lists. */
  predicate IsInSystem(p: Planet, system: string)
  {
    system in p.systems
  }

  /** No system key is listed twice. */
  predicate NoDuplicates(keys: seq<string>)
  {
    forall i, j :: 0 <= i < j < |keys| ==> keys[i] != keys[j]
  }

  /** Planet::IsWormhole: the planet is listed in more than one system. */
  predicate IsWormhole(p: Planet)
  {
    |p.systems| > 1
  }

  /** With no system listed twice, a wormhole is a planet that is in two different systems. */
  lemma WormholeSpansTwoSystems(p: Planet)
    requires NoDuplicates(p.systems)
    ensures IsWormhole(p) <==> exists s1, s2 :: s1 != s2 && IsInSystem(p, s1) && IsInSystem(p, s2)
  {
    if |p.systems| > 1 {
      assert IsInSystem(p, p.systems[0]) && IsInSystem(p, p.systems[1]);
    } else {
      assert forall s1, s2 :: IsInSystem(p, s1) && IsInSystem(p, s2) ==> s1 == s2 == p.systems[0];
    }
  }

  /** Planet::WormholeSystems: the systems the planet is in, in wormhole travel order. */
  function WormholeSystems(p: Planet): (r: seq<string>)
    ensures forall s :: s in r <==> IsInSystem(p, s)
    ensures |r| > 1 <==> IsWormhole(p)
    ensures NoDuplicates(p.systems) ==> NoDuplicates(r)
  {
    p.systems
  }

  /** Planet::AddSystem: afterwards the planet is in `system`; nothing else changes. */
  function AddSystem(p: Planet, system: string): (r: Planet)
    ensures IsInSystem(r, system)
    ensures forall s :: IsInSystem(r, s) <==> s == system || IsInSystem(p, s)
    ensures r.(systems := p.systems) == p
    ensures IsInSystem(p, system) ==> r == p
    ensures NoDuplicates(p.systems) ==> NoDuplicates(r.systems)
  {
    if system in p.systems then p else p.(systems := p.systems + [system])
  }

  /** `keys` with every occurrence of `key` dropped (WithoutCounts: the others kept as often as they occur). */
  function Without(keys: seq<string>, key: string): (r: seq<string>)
    ensures forall s :: s in r <==> s in keys && s != key
    ensures key !in keys ==> r == keys
  {
    if keys == [] then []
    else (if keys[0] == key then [] else [keys[0]]) + Without(keys[1..], key)
  }

  /** Every key other than `key` is kept as often as it occurs. */
  lemma {:induction false} WithoutCounts(keys: seq<string>, key: string)
    ensures multiset(Without(keys, key)) == multiset(keys)[key := 0]
  {
    if keys != [] {
      assert keys == [keys[0]] + keys[1..];
      WithoutCounts(keys[1..], key);
    }
  }

  /** Dropping a key keeps the order of the others: it works piece by piece. */
  lemma {:induction false} WithoutAppend(a: seq<string>, b: seq<string>, key: string)
    ensures Without(a + b, key) == Without(a, key) + Without(b, key)
  {
    if a != [] {
      var head := if a[0] == key then [] else [a[0]];
      assert (a + b)[0] == a[0] && (a + b)[1..] == a[1..] + b;
      assert Without(a + b, key) == head + Without(a[1..] + b, key);
      assert Without(a, key) == head + Without(a[1..], key);
      WithoutAppend(a[1..], b, key);
    } else {
      assert a + b == b;
    }
  }

  lemma {:induction false} WithoutKeepsNoDuplicates(keys: seq<string>, key: string)
    requires NoDuplicates(keys)
    ensures NoDuplicates(Without(keys, key))
  {
    if keys != [] {
      assert NoDuplicates(keys[1..]);
      WithoutKeepsNoDuplicates(keys[1..], key);
      assert keys[0] !in keys[1..];
    }
  }

  /**
   * Planet::RemoveSystem: afterwards the planet is not in `system`; the other
   * systems stay listed as often as before and in the same order (WithoutAppend),
   * and nothing else changes.
   */
  function RemoveSystem(p: Planet, system: string): (r: Planet)
    ensures !IsInSystem(r, system)
    ensures forall s :: s != system ==> (IsInSystem(r, s) <==> IsInSystem(p, s))
    ensures multiset(r.systems) == multiset(p.systems)[system := 0]
    ensures NoDuplicates(p.systems) ==> NoDuplicates(r.systems)
    ensures !IsInSystem(p, system) ==> r == p
    ensures r.(systems := p.systems) == p
  {
    WithoutCounts(p.systems, system);
    if NoDuplicates(p.systems) then
      WithoutKeepsNoDuplicates(p.systems, system);
      p.(systems := Without(p.systems, system))
    else
      p.(systems := Without(p.systems, system))
  }
}
