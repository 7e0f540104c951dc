/**
 Expansion of domain groups (cc-deck/internal/network/domains.go:27-113).

 A user group may extend the built-in group of its name and include other groups. Expansion is a depth-first walk
 that shares one set of visited names and never removes a name from it.
 */
module DomainGroups {
  import opened Wrappers

  datatype UserGroup = UserGroup(domains: seq<string>, extendsName: string, includes: seq<string>)

  datatype Error = CircularInclude(name: string) | UnknownGroup(name: string)

  datatype Result = Ok(domains: seq<string>) | Err(error: Error)

  datatype Config = Config(builtin: map<string, seq<string>>, user: map<string, UserGroup>) {
    predicate Known(name: string) {
      name in user || name in builtin
    }

    function Names(): set<string> {
      user.Keys + builtin.Keys
    }

    /** The domains a group contributes itself. */
    function Own(name: string): seq<string> {
      if name in user then
        (if user[name].extendsName == "builtin" && name in builtin then builtin[name] else []) + user[name].domains
      else if name in builtin then builtin[name]
      else []
    }

    function Includes(name: string): seq<string> {
      if name in user then user[name].includes else []
    }
  }

  // ---- The walk ----

  datatype Walk = Walked(domains: seq<string>, visited: set<string>) | Stopped(error: Error)

  /** The walk over a list of names, each with everything it includes, one after the other. */
  function Expand(c: Config, names: seq<string>, visited: set<string>): (w: Walk)
    ensures w.Walked? ==> visited <= w.visited
    decreases |c.Names() - visited|, 1, |names|
  {
    if names == [] then Walked([], visited)
    else
      var first := ExpandName(c, names[0], visited);
      if first.Stopped? then first
      else
        Shrinks(c.Names(), visited, first.visited);
        Then(first, Expand(c, names[1..], first.visited))
  }

  /** The walk over one name. */
  function ExpandName(c: Config, name: string, visited: set<string>): (w: Walk)
    ensures w.Walked? ==> visited <= w.visited
    decreases |c.Names() - visited|, 0, 0
  {
    if name in visited then Stopped(CircularInclude(name))
    else if !c.Known(name) then Stopped(UnknownGroup(name))
    else
      Shrinks(c.Names(), visited, visited + {name});
      Then(Walked(c.Own(name), visited + {name}), Expand(c, c.Includes(name), visited + {name}))
  }

  /** One walk after another. */
  function Then(first: Walk, second: Walk): Walk {
    if first.Stopped? then first
    else if second.Stopped? then second
    else Walked(first.domains + second.domains, second.visited)
  }

  lemma Shrinks(keys: set<string>, smaller: set<string>, larger: set<string>)
    requires smaller <= larger
    ensures |keys - larger| <= |keys - smaller|
    ensures forall name :: name in keys && name in larger && name !in smaller ==> |keys - larger| < |keys - smaller|
  {
    SubsetSize(keys - larger, keys - smaller);
    forall name | name in keys && name in larger && name !in smaller ensures |keys - larger| < |keys - smaller| {
      SubsetSize(keys - larger, keys - smaller - {name});
    }
  }

  /** One expansion: the configuration, and the set of visited names that all its recursive calls share. */
  class Expansion {
    const config: Config
    var visited: set<string>

    constructor (c: Config)
      ensures config == c && visited == {}
    {
      config, visited := c, {};
    }

    method ExpandRecursive(name: string) returns (r: Result)
      modifies this`visited
      ensures var w := ExpandName(config, name, old(visited));
        if w.Walked? then r == Ok(w.domains) && visited == w.visited else r == Err(w.error)
      ensures r.Ok? ==> old(visited) <= visited
      decreases |config.Names() - visited|, 0
    {
      if name in visited {
        return Err(CircularInclude(name));
      }
      ghost var before := visited;
      visited := visited + {name};
      Shrinks(config.Names(), before, visited);
      if name in config.user {
        r := ResolveUserGroup(name);
      } else if name in config.builtin {
        r := Ok(config.builtin[name]);
      } else {
        r := Err(UnknownGroup(name));
      }
    }

    method ResolveUserGroup(name: string) returns (r: Result)
      requires name in config.user
      modifies this`visited
      ensures var w := Expand(config, config.Includes(name), old(visited));
        if w.Walked? then r == Ok(config.Own(name) + w.domains) && visited == w.visited else r == Err(w.error)
      ensures r.Ok? ==> old(visited) <= visited
      decreases |config.Names() - visited|, 1
    {
      var group := config.user[name];
      var domains: seq<string> := [];
      if group.extendsName == "builtin" && name in config.builtin {
        domains := domains + config.builtin[name];
      }
      domains := domains + group.domains;
      ghost var before := visited;
      for i := 0 to |group.includes|
        invariant before <= visited
        invariant IncludedTo(config, name, i, before, domains, visited)
      {
        ghost var w := ExpandName(config, group.includes[i], visited);
        IncludeStep(config, name, i, before, domains, visited, w);
        var inc := ExpandRecursive(group.includes[i]);
        if inc.Err? {
          return inc;
        }
        domains := domains + inc.domains;
      }
      assert group.includes[..|group.includes|] == group.includes;
      r := Ok(domains);
    }
  }

  /** The first i includes of a user group are expanded: the loop's state in terms of the walk. */
  ghost predicate IncludedTo(
    c: Config, name: string, i: nat, before: set<string>, domains: seq<string>, visited: set<string>
  ) {
    && i <= |c.Includes(name)|
    && var w := Expand(c, c.Includes(name)[..i], before);
    w.Walked? && domains == c.Own(name) + w.domains && visited == w.visited
  }

  lemma IncludeStep(
    c: Config, name: string, i: nat, before: set<string>, domains: seq<string>, visited: set<string>, w: Walk
  )
    requires i < |c.Includes(name)| && IncludedTo(c, name, i, before, domains, visited)
    requires w == ExpandName(c, c.Includes(name)[i], visited)
    ensures |c.Names() - visited| <= |c.Names() - before|
    ensures w.Walked? ==> IncludedTo(c, name, i + 1, before, domains + w.domains, w.visited)
    ensures w.Stopped? ==> Expand(c, c.Includes(name), before) == w
  {
    SubsetSize(c.Names() - visited, c.Names() - before);
    PrefixStep(c, c.Includes(name), i, before);
    Associative(c.Own(name), Expand(c, c.Includes(name)[..i], before).domains, if w.Walked? then w.domains else []);
  }

  lemma PrefixStep(c: Config, names: seq<string>, i: nat, visited: set<string>)
    requires i < |names|
    ensures var w := Expand(c, names[..i], visited);
      var next := if w.Stopped? then w else Then(w, ExpandName(c, names[i], w.visited));
      && Expand(c, names[..i + 1], visited) == next
      && (next.Stopped? ==> Expand(c, names, visited) == next)
  {
    assert names[..i + 1] == names[..i] + [names[i]];
    ExpandAppend(c, names[..i], names[i], visited);
    if Expand(c, names[..i + 1], visited).Stopped? {
      StoppedPrefix(c, names, visited, i + 1);
    }
  }

  lemma Associative(a: seq<string>, b: seq<string>, c: seq<string>)
    ensures a + b + c == a + (b + c)
  {
  }

  method ExpandGroup(c: Config, name: string) returns (r: Result)
    ensures r == Expanded(c, name)
  {
    var e := new Expansion(c);
    r := e.ExpandRecursive(name);
  }

  /** What ExpandGroup returns. */
  function Expanded(c: Config, name: string): Result {
    var w := ExpandName(c, name, {});
    if w.Walked? then Ok(w.domains) else Err(w.error)
  }

  /** Walking one more name at the end of the list. */
  lemma {:induction false} ExpandAppend(c: Config, names: seq<string>, last: string, visited: set<string>)
    ensures var w := Expand(c, names, visited);
      Expand(c, names + [last], visited) == if w.Stopped? then w else Then(w, ExpandName(c, last, w.visited))
    decreases |names|
  {
    if names == [] {
      assert names + [last] == [last];
    } else {
      var first := ExpandName(c, names[0], visited);
      assert (names + [last])[0] == names[0] && (names + [last])[1..] == names[1..] + [last];
      if first.Walked? {
        ExpandAppend(c, names[1..], last, first.visited);
        if Expand(c, names[1..], first.visited).Walked? {
          ThenAssociative(first, Expand(c, names[1..], first.visited), c, last);
        }
      }
    }
  }

  lemma ThenAssociative(a: Walk, b: Walk, c: Config, last: string)
    requires a.Walked? && b.Walked?
    ensures Then(a, Then(b, ExpandName(c, last, b.visited))) == Then(Then(a, b), ExpandName(c, last, b.visited))
  {
    var w := ExpandName(c, last, b.visited);
    if w.Walked? {
      assert a.domains + (b.domains + w.domains) == a.domains + b.domains + w.domains;
    }
  }

  /** A walk that stops within a prefix of the list stops there. */
  lemma {:induction false} StoppedPrefix(c: Config, names: seq<string>, visited: set<string>, i: nat)
    requires i <= |names| && Expand(c, names[..i], visited).Stopped?
    ensures Expand(c, names, visited) == Expand(c, names[..i], visited)
    decreases |names|
  {
    var first := ExpandName(c, names[0], visited);
    if first.Walked? {
      assert names[1..][..i - 1] == names[..i][1..];
      StoppedPrefix(c, names[1..], first.visited, i - 1);
    }
  }
  // ---- What the walk finds: the groups that include routes lead to ----

  /**
   A route is a sequence of positions: the first selects one of the names, each later one an include of the group
   selected before. Routes tell apart two ways of including the same group.
   */
  function Follow(c: Config, names: seq<string>, route: seq<nat>): Option<string>
    decreases |route|
  {
    if route == [] || route[0] >= |names| then None
    else if |route| == 1 then Some(names[route[0]])
    else Follow(c, c.Includes(names[route[0]]), route[1..])
  }

  ghost predicate Reachable(c: Config, names: seq<string>, group: string) {
    exists route :: Follow(c, names, route) == Some(group)
  }

  function Later(route: seq<nat>): seq<nat>
    requires route != []
  {
    [route[0] + 1] + route[1..]
  }

  lemma FollowLater(c: Config, names: seq<string>, route: seq<nat>)
    requires names != [] && route != []
    ensures Follow(c, names, Later(route)) == Follow(c, names[1..], route)
  {
    assert Later(route)[1..] == route[1..];
  }

  lemma FollowInto(c: Config, names: seq<string>, route: seq<nat>)
    requires names != [] && route != []
    ensures Follow(c, names, [0] + route) == Follow(c, c.Includes(names[0]), route)
  {
    assert ([0] + route)[1..] == route;
  }

  /** Every route is at the first name, into it, or past it. */
  lemma RouteCases(c: Config, names: seq<string>, route: seq<nat>)
    requires Follow(c, names, route).Some?
    ensures names != []
    ensures if route[0] > 0 then
      var earlier := [route[0] - 1] + route[1..];
      route == Later(earlier) && Follow(c, names, route) == Follow(c, names[1..], earlier)
    else if |route| > 1 then
      route == [0] + route[1..] && Follow(c, names, route) == Follow(c, c.Includes(names[0]), route[1..])
    else
      route == [0] && Follow(c, names, route) == Some(names[0])
  {
    if route[0] > 0 {
      FollowLater(c, names, [route[0] - 1] + route[1..]);
    }
  }

  /** Everything a walk has visited was reached by a route. */
  lemma {:induction false} VisitedHasRoute(c: Config, names: seq<string>, visited: set<string>, g: string)
    returns (route: seq<nat>)
    requires Expand(c, names, visited).Walked?
    requires g in Expand(c, names, visited).visited && g !in visited
    ensures Follow(c, names, route) == Some(g)
    decreases |c.Names() - visited|, |names|
  {
    var n := names[0];
    var first := ExpandName(c, n, visited);
    if g == n {
      route := [0];
    } else if g in first.visited {
      Shrinks(c.Names(), visited, visited + {n});
      route := VisitedHasRoute(c, c.Includes(n), visited + {n}, g);
      FollowInto(c, names, route);
      route := [0] + route;
    } else {
      Shrinks(c.Names(), visited, first.visited);
      route := VisitedHasRoute(c, names[1..], first.visited, g);
      FollowLater(c, names, route);
      route := Later(route);
    }
  }

  /** Every route of a walk that succeeds leads to a known group, which the walk has visited and had not before. */
  lemma {:induction false} RouteIsVisited(c: Config, names: seq<string>, visited: set<string>, route: seq<nat>)
    requires Expand(c, names, visited).Walked? && Follow(c, names, route).Some?
    ensures var g := Follow(c, names, route).value;
      c.Known(g) && g in Expand(c, names, visited).visited && g !in visited
    decreases |c.Names() - visited|, |names|
  {
    RouteCases(c, names, route);
    var n := names[0];
    var first := ExpandName(c, n, visited);
    if route[0] > 0 {
      Shrinks(c.Names(), visited, first.visited);
      RouteIsVisited(c, names[1..], first.visited, [route[0] - 1] + route[1..]);
    } else if |route| > 1 {
      Shrinks(c.Names(), visited, visited + {n});
      RouteIsVisited(c, c.Includes(n), visited + {n}, route[1..]);
    }
  }

  /** In a walk that succeeds, no two routes lead to the same group. */
  lemma {:induction false} OnlyRoute(c: Config, names: seq<string>, visited: set<string>, p: seq<nat>, q: seq<nat>)
    requires Expand(c, names, visited).Walked?
    requires Follow(c, names, p).Some? && Follow(c, names, p) == Follow(c, names, q)
    ensures p == q
    decreases |c.Names() - visited|, |names|
  {
    RouteCases(c, names, p);
    RouteCases(c, names, q);
    WhereRoutesLead(c, names, visited, p);
    WhereRoutesLead(c, names, visited, q);
    var n := names[0];
    var first := ExpandName(c, n, visited);
    if p[0] > 0 {
      Shrinks(c.Names(), visited, first.visited);
      OnlyRoute(c, names[1..], first.visited, [p[0] - 1] + p[1..], [q[0] - 1] + q[1..]);
    } else if |p| > 1 {
      Shrinks(c.Names(), visited, visited + {n});
      OnlyRoute(c, c.Includes(n), visited + {n}, p[1..], q[1..]);
    }
  }

  /** The walk of the first name visits the groups that routes through it lead to, and no others. */
  lemma WhereRoutesLead(c: Config, names: seq<string>, visited: set<string>, route: seq<nat>)
    requires Expand(c, names, visited).Walked? && Follow(c, names, route).Some?
    ensures names != []
    ensures var g := Follow(c, names, route).value;
      && (route[0] == 0 <==> g in ExpandName(c, names[0], visited).visited)
      && (|route| == 1 && route[0] == 0 <==> g == names[0])
  {
    RouteCases(c, names, route);
    var n := names[0];
    if route[0] > 0 {
      RouteIsVisited(c, names[1..], ExpandName(c, n, visited).visited, [route[0] - 1] + route[1..]);
    } else if |route| > 1 {
      RouteIsVisited(c, c.Includes(n), visited + {n}, route[1..]);
    }
  }

  /**
   A reason to stop: a route to a group that does not exist, to a group visited before, or two routes to one group.
   */
  ghost predicate Cause(
    c: Config, names: seq<string>, visited: set<string>, e: Error, route: seq<nat>, second: seq<nat>
  ) {
    && Follow(c, names, route) == Some(e.name)
    && (e.UnknownGroup? ==> !c.Known(e.name))
    && (e.CircularInclude? && e.name !in visited ==> second != route && Follow(c, names, second) == Some(e.name))
  }

  lemma CauseInto(
    c: Config, names: seq<string>, visited: set<string>, e: Error, route: seq<nat>, second: seq<nat>
  ) returns (other: seq<nat>)
    requires names != [] && Cause(c, c.Includes(names[0]), visited + {names[0]}, e, route, second)
    ensures Cause(c, names, visited, e, [0] + route, other)
  {
    FollowInto(c, names, route);
    other := [0];
    if e.CircularInclude? && e.name !in visited + {names[0]} {
      FollowInto(c, names, second);
      other := [0] + second;
    }
  }

  lemma CausePast(
    c: Config, names: seq<string>, visited: set<string>, e: Error, route: seq<nat>, second: seq<nat>
  ) returns (other: seq<nat>)
    requires names != [] && ExpandName(c, names[0], visited).Walked?
    requires Cause(c, names[1..], ExpandName(c, names[0], visited).visited, e, route, second)
    ensures Cause(c, names, visited, e, Later(route), other)
  {
    var n := names[0];
    var first := ExpandName(c, n, visited);
    FollowLater(c, names, route);
    other := [0];
    if e.CircularInclude? && e.name !in first.visited {
      FollowLater(c, names, second);
      other := Later(second);
    } else if e.CircularInclude? && e.name !in visited && e.name != n {
      other := VisitedHasRoute(c, c.Includes(n), visited + {n}, e.name);
      FollowInto(c, names, other);
      other := [0] + other;
    }
  }

  /** A walk that stops has a cause. */
  lemma {:induction false} StopHasCause(c: Config, names: seq<string>, visited: set<string>)
    returns (route: seq<nat>, second: seq<nat>)
    requires Expand(c, names, visited).Stopped?
    ensures Cause(c, names, visited, Expand(c, names, visited).error, route, second)
    decreases |c.Names() - visited|, |names|
  {
    var n := names[0];
    var e := Expand(c, names, visited).error;
    var first := ExpandName(c, n, visited);
    route, second := [0], [0];
    if n !in visited && c.Known(n) {
      if first.Stopped? {
        Shrinks(c.Names(), visited, visited + {n});
        route, second := StopHasCause(c, c.Includes(n), visited + {n});
        second := CauseInto(c, names, visited, e, route, second);
        route := [0] + route;
      } else {
        Shrinks(c.Names(), visited, first.visited);
        route, second := StopHasCause(c, names[1..], first.visited);
        second := CausePast(c, names, visited, e, route, second);
        route := Later(route);
      }
    }
  }

  /** A walk collects the own domains of the groups it visits, and nothing else. */
  lemma {:induction false} DomainsOfVisited(c: Config, names: seq<string>, visited: set<string>, d: string)
    requires Expand(c, names, visited).Walked?
    ensures var w := Expand(c, names, visited);
      d in w.domains <==> exists g :: g in w.visited && g !in visited && d in c.Own(g)
    decreases |c.Names() - visited|, |names|
  {
    if names != [] {
      var n := names[0];
      var first := ExpandName(c, n, visited);
      Shrinks(c.Names(), visited, visited + {n});
      DomainsOfVisited(c, c.Includes(n), visited + {n}, d);
      Shrinks(c.Names(), visited, first.visited);
      DomainsOfVisited(c, names[1..], first.visited, d);
    }
  }

  // ---- The results about ExpandGroup ----

  /**
   ExpandGroup succeeds exactly when every group that the includes lead to exists and no group is led to by two
   different routes.
   */
  lemma SucceedsExactlyOnTrees(c: Config, name: string)
    ensures Expanded(c, name).Ok? <==>
      && (forall g :: Reachable(c, [name], g) ==> c.Known(g))
      && (forall p, q :: Follow(c, [name], p).Some? && Follow(c, [name], p) == Follow(c, [name], q) ==> p == q)
  {
    WalkOfOne(c, name);
    if Expanded(c, name).Ok? {
      forall g | Reachable(c, [name], g) ensures c.Known(g) {
        var route :| Follow(c, [name], route) == Some(g);
        RouteIsVisited(c, [name], {}, route);
      }
      forall p, q | Follow(c, [name], p).Some? && Follow(c, [name], p) == Follow(c, [name], q) ensures p == q {
        OnlyRoute(c, [name], {}, p, q);
      }
    } else {
      var route, second := StopHasCause(c, [name], {});
      var e := Expanded(c, name).error;
      assert Follow(c, [name], route) == Some(e.name) && Reachable(c, [name], e.name);
      assert e.CircularInclude? ==> second != route && Follow(c, [name], second) == Follow(c, [name], route);
    }
  }

  /** A successful expansion returns the own domains of exactly the groups that the includes lead to. */
  lemma CollectsReachableGroups(c: Config, name: string, d: string)
    requires Expanded(c, name).Ok?
    ensures d in Expanded(c, name).domains <==> exists g :: Reachable(c, [name], g) && d in c.Own(g)
  {
    WalkOfOne(c, name);
    DomainsOfVisited(c, [name], {}, d);
    var w := Expand(c, [name], {});
    if g :| g in w.visited && d in c.Own(g) {
      var route := VisitedHasRoute(c, [name], {}, g);
      assert Reachable(c, [name], g);
    }
    if g :| Reachable(c, [name], g) && d in c.Own(g) {
      var route :| Follow(c, [name], route) == Some(g);
      RouteIsVisited(c, [name], {}, route);
    }
  }

  /** A cycle anywhere below the group is an error: some route to a group goes on to the same group. */
  lemma CyclesAreErrors(c: Config, name: string, route: seq<nat>, around: seq<nat>)
    requires Follow(c, [name], route).Some? && around != []
    requires Follow(c, [name], route + around) == Follow(c, [name], route)
    ensures Expanded(c, name).Err?
  {
    SucceedsExactlyOnTrees(c, name);
    assert |route + around| > |route|;
  }

  lemma WalkOfOne(c: Config, name: string)
    ensures var w := Expand(c, [name], {});
      Expanded(c, name) == if w.Walked? then Ok(w.domains) else Err(w.error)
  {
    var first := ExpandName(c, name, {});
    if first.Walked? {
      assert Expand(c, [name][1..], first.visited) == Walked([], first.visited);
      assert first.domains + [] == first.domains;
    }
  }

  // ---- An include that is shared, without any cycle, is an error too ----

  const DIAMOND := Config(
    map[],
    map[
      "top" := UserGroup([], "", ["left", "right"]),
      "left" := UserGroup([], "", ["base"]),
      "right" := UserGroup([], "", ["base"]),
      "base" := UserGroup([".example.com"], "", [])
    ])

  /** In the diamond no group leads back to itself, and still its expansion is an error that says "circular". */
  lemma SharedIncludeIsAnError(g: string, route: seq<nat>)
    ensures Expanded(DIAMOND, "top") == Err(CircularInclude("base"))
    ensures Follow(DIAMOND, DIAMOND.Includes(g), route) != Some(g)
  {
    var c := DIAMOND;
    var below := {"top", "left", "base"};
    assert Expand(c, c.Includes("base"), below) == Walked([], below);
    assert c.Includes("left") == ["base"];
    assert ExpandName(c, "base", {"top", "left"}).visited == {"top", "left"} + {"base"} == below;
    assert Expand(c, ["base"], {"top", "left"}).visited == below;
    assert {"top"} + {"left"} == {"top", "left"};
    assert ExpandName(c, "left", {"top"}).visited == below;
    assert c.Includes("right") == ["base"];
    assert ExpandName(c, "right", below) == Stopped(CircularInclude("base"));
    assert ["left", "right"][1..] == ["right"];
    assert Expand(c, ["left", "right"], {"top"}) == Stopped(CircularInclude("base"));
    assert {} + {"top"} == {"top"};
    Descends(g, route);
  }

  /** How far down the diamond a group is. */
  function Level(g: string): nat {
    if g == "top" then 0 else if g == "left" || g == "right" then 1 else 2
  }

  lemma {:induction false} Descends(g: string, route: seq<nat>)
    ensures var to := Follow(DIAMOND, DIAMOND.Includes(g), route);
      to.Some? ==> Level(to.value) > Level(g)
    decreases |route|
  {
    if route != [] && route[0] < |DIAMOND.Includes(g)| {
      Descends(DIAMOND.Includes(g)[route[0]], route[1..]);
    }
  }
}
