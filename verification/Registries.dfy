/** What a map of running things holds, and what really runs. */
module Registries {
  type Name = string
  type Handle = nat

  /** `held` is the map the program keeps; `running` is what has been started and not stopped. */
  datatype Registry = Registry(held: map<Name, Handle>, running: set<(Name, Handle)>)

  const EMPTY := Registry(map[], {})

  /** Stop what the map holds under a name, and forget it. */
  function Halted(r: Registry, name: Name): Registry {
    if name in r.held then Registry(r.held - {name}, r.running - {(name, r.held[name])}) else r
  }

  /** Start something and put it in the map, whatever was there. */
  function Launched(r: Registry, name: Name, h: Handle): Registry {
    Registry(r.held[name := h], r.running + {(name, h)})
  }

  /** What runs is exactly what the map holds. */
  ghost predicate Exact(r: Registry) {
    r.running == r.held.Items
  }

  ghost predicate Below(r: Registry, next: Handle) {
    forall x | x in r.running :: x.1 < next
  }

  lemma StopExact(r: Registry, name: Name)
    requires Exact(r)
    ensures Exact(Halted(r, name))
  {
    var t := Halted(r, name);
    forall x
      ensures x in t.running <==> x in t.held.Items
    {
      if x in r.running { assert r.held[x.0] == x.1; }
    }
  }

  lemma LaunchExact(r: Registry, name: Name, h: Handle)
    requires Exact(r) && name !in r.held
    ensures Exact(Launched(r, name, h))
  {
    var t := Launched(r, name, h);
    forall x
      ensures x in t.running <==> x in t.held.Items
    {
      assert x == (x.0, x.1);
      assert x in t.held.Items <==> x.0 in t.held && t.held[x.0] == x.1;
      assert x in r.held.Items <==> x.0 in r.held && r.held[x.0] == x.1;
    }
  }

  /** Starting leaks exactly if the map still held something: that one goes on running and can be stopped no more. */
  lemma LeaksIff(r: Registry, name: Name, h: Handle)
    requires Exact(r) && Below(r, h)
    ensures Exact(Launched(r, name, h)) <==> name !in r.held
  {
    if name in r.held {
      var t := Launched(r, name, h);
      assert (name, r.held[name]) in r.held.Items;
      assert (name, r.held[name]) in t.running && t.held[name] == h;
    } else {
      LaunchExact(r, name, h);
    }
  }

  /** Where the map is exact, at most one thing runs under a name, and it is the one in the map. */
  lemma OnlyOne(r: Registry, name: Name, a: Handle, b: Handle)
    requires Exact(r) && (name, a) in r.running && (name, b) in r.running
    ensures a == b && name in r.held && r.held[name] == a
  {
    assert (name, a) in r.held.Items && (name, b) in r.held.Items;
  }
}
