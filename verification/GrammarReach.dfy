/** Two worklists over names: the nonterminals that a grammar's entry reaches
    (tools/query-language-inventory.py:207-231) and the messages that a service's
    requests reach (tools/query-language-inventory.py:373-397). */
module GrammarReach {
  import opened Basics

  /** What one name leads to. */
  type Edges = string -> set<string>

  ghost predicate Closed(s: set<string>, next: Edges) { forall n | n in s :: next(n) <= s }

  /** The least closed set that holds the roots. */
  ghost predicate Least(s: set<string>, roots: set<string>, next: Edges) {
    && roots <= s && Closed(s, next)
    && forall t: set<string> | roots <= t && Closed(t, next) :: s <= t
  }

  lemma {:induction false} LeastIsUnique(a: set<string>, b: set<string>, roots: set<string>, next: Edges)
    requires Least(a, roots, next) && Least(b, roots, next)
    ensures a == b
  {
  }

  /** A walk from a root, one edge at a time. */
  ghost predicate Walk(path: seq<string>, roots: set<string>, next: Edges) {
    && path != [] && path[0] in roots
    && forall i, j | 0 <= i && j == i + 1 < |path| :: path[j] in next(path[i])
  }

  ghost predicate Walkable(n: string, roots: set<string>, next: Edges) {
    exists path :: Walk(path, roots, next) && path[|path| - 1] == n
  }

  lemma {:induction false} WalkStays(path: seq<string>, roots: set<string>, next: Edges, s: set<string>, i: nat)
    requires Walk(path, roots, next) && roots <= s && Closed(s, next) && i < |path|
    ensures path[i] in s
    decreases i
  {
    if i > 0 {
      WalkStays(path, roots, next, s, i - 1);
      assert path[i] in next(path[i - 1]);
    }
  }

  lemma {:induction false} WalkOn(path: seq<string>, roots: set<string>, next: Edges, m: string)
    requires Walk(path, roots, next) && m in next(path[|path| - 1])
    ensures Walk(path + [m], roots, next)
  {
  }

  /** The least closed set is what can be walked to. */
  lemma {:induction false} LeastIsWalkable(s: set<string>, roots: set<string>, next: Edges, n: string)
    requires Least(s, roots, next)
    ensures n in s <==> Walkable(n, roots, next)
  {
    if Walkable(n, roots, next) {
      var path :| Walk(path, roots, next) && path[|path| - 1] == n;
      WalkStays(path, roots, next, s, |path| - 1);
    }
    var walked := set m | m in s && Walkable(m, roots, next);
    forall r | r in roots ensures r in walked {
      assert Walk([r], roots, next) && [r][|[r]| - 1] == r;
    }
    forall m, k | m in walked && k in next(m) ensures k in walked {
      var path :| Walk(path, roots, next) && path[|path| - 1] == m;
      WalkOn(path, roots, next, m := k);
      assert (path + [k])[|path + [k]| - 1] == k;
    }
    assert Closed(walked, next);
    assert s <= walked;
  }

  /** A worklist in between: what is done, and what still waits. */
  ghost predicate Working(done: set<string>, pending: seq<string>, roots: set<string>, next: Edges) {
    && (forall r | r in roots :: r in done || r in pending)
    && (forall n, m | n in done && m in next(n) :: m in done || m in pending)
    && (forall t: set<string> | roots <= t && Closed(t, next) :: done <= t && forall n | n in pending :: n in t)
  }

  lemma {:induction false} WorkingEnds(done: set<string>, roots: set<string>, next: Edges)
    requires Working(done, [], roots, next)
    ensures Least(done, roots, next)
  {
  }

  lemma {:induction false} WorkingSkips(done: set<string>, pending: seq<string>, roots: set<string>, next: Edges)
    requires pending != [] && Working(done, pending, roots, next) && pending[|pending| - 1] in done
    ensures Working(done, pending[..|pending| - 1], roots, next)
  {
    assert pending == pending[..|pending| - 1] + [pending[|pending| - 1]];
  }

  /** Taking a name means waiting for all it leads to, except what is done. */
  lemma {:induction false} WorkingTakes(done: set<string>, pending: seq<string>, added: seq<string>,
                                        roots: set<string>, next: Edges)
    requires pending != [] && Working(done, pending, roots, next)
    requires var n := pending[|pending| - 1]; forall m | m in next(n) :: m in done + {n} || m in added
    requires var n := pending[|pending| - 1]; forall m | m in added :: m in next(n)
    ensures Working(done + {pending[|pending| - 1]}, pending[..|pending| - 1] + added, roots, next)
  {
    var n, rest := pending[|pending| - 1], pending[..|pending| - 1];
    assert pending == rest + [n];
    forall t: set<string> | roots <= t && Closed(t, next)
      ensures done + {n} <= t && forall m | m in rest + added :: m in t
    {
      assert n in pending;
      assert next(n) <= t;
    }
  }

  // ----- the grammar

  datatype Production = Production(id: string, lhs: string, symbols: seq<string>)

  function Lhs(productions: seq<Production>): set<string> { set p | p in productions :: p.lhs }

  /** The nonterminals on the right of a name's productions. */
  function Uses(productions: seq<Production>, name: string): (r: set<string>)
    ensures r <= Lhs(productions)
  {
    set p, s | p in productions && p.lhs == name && s in p.symbols && s in Lhs(productions) :: s
  }

  ghost function Grammar(productions: seq<Production>): Edges { n => Uses(productions, n) }

  datatype Surface = Surface(reachable: set<string>, unreachable: set<string>, selected: seq<string>,
                             terminals: set<string>)

  /** A set listed in some order. */
  method Listing(s: set<string>) returns (list: seq<string>)
    ensures forall x :: x in list <==> x in s
  {
    list := [];
    var rest := s;
    while rest != {}
      invariant rest <= s && forall x :: x in list <==> x in s - rest
      decreases |rest|
    {
      var x :| x in rest;
      list := list + [x];
      rest := rest - {x};
    }
  }

  /** What one round adds: for each production of the name, its nonterminals that
      are not reached yet. */
  method Extend(productions: seq<Production>, name: string, reachable: set<string>) returns (added: seq<string>)
    ensures forall m | m in Uses(productions, name) :: m in reachable || m in added
    ensures forall m | m in added :: m in Uses(productions, name) && m !in reachable
  {
    added := [];
    var nonterminals := Lhs(productions);
    for i := 0 to |productions|
      invariant forall p, s | p in productions[..i] && p.lhs == name && s in p.symbols && s in nonterminals ::
                  s in reachable || s in added
      invariant forall m | m in added :: m in Uses(productions, name) && m !in reachable
    {
      var p := productions[i];
      assert productions[..i + 1] == productions[..i] + [p];
      if p.lhs == name {
        var more := Listing((set s | s in p.symbols) * (nonterminals - reachable));
        assert p in productions;
        added := added + more;
      }
    }
    assert productions[..|productions|] == productions;
  }

  function Chosen(productions: seq<Production>, reachable: set<string>): seq<Production> {
    if productions == [] then []
    else
      var init, last := Chosen(productions[..|productions| - 1], reachable), productions[|productions| - 1];
      if last.lhs in reachable then init + [last] else init
  }

  function IdsOf(productions: seq<Production>): seq<string> {
    seq(|productions|, i requires 0 <= i < |productions| => productions[i].id)
  }

  function TerminalsOf(productions: seq<Production>, terminals: set<string>): set<string> {
    set p, s | p in productions && s in p.symbols && s in terminals :: s
  }

  ghost predicate IsSurface(entry: string, terminals: set<string>, productions: seq<Production>, s: Surface) {
    && Least(s.reachable, {entry}, Grammar(productions))
    && s.unreachable == Lhs(productions) - s.reachable
    && s.selected == IdsOf(Chosen(productions, s.reachable))
    && s.terminals == TerminalsOf(Chosen(productions, s.reachable), terminals)
  }

  /** Raises, `None`, when the entry has no production; otherwise reaches exactly
      the least closed set, in whatever order the sets are listed. */
  method PublicGrammar(entry: string, terminals: set<string>, productions: seq<Production>)
        returns (r: Option<Surface>)
    ensures r.Some? <==> entry in Lhs(productions)
    ensures r.Some? ==> IsSurface(entry, terminals, productions, r.value)
  {
    hide Uses, Working, Least, Chosen;
    var nonterminals := Lhs(productions);
    if entry !in nonterminals {
      return None;
    }
    ghost var next := Grammar(productions);
    var reachable: set<string>, pending := {}, [entry];
    StartWorking(entry, next);
    while pending != []
      invariant Working(reachable, pending, {entry}, next)
      invariant reachable <= nonterminals && forall n | n in pending :: n in nonterminals
      decreases |nonterminals - reachable|, |pending|
    {
      var name := pending[|pending| - 1];
      if name in reachable {
        WorkingSkips(reachable, pending, {entry}, next);
        pending := pending[..|pending| - 1];
        continue;
      }
      var added := Extend(productions, name, reachable + {name});
      WorkingTakes(reachable, pending, added, {entry}, next);
      Fewer(nonterminals, reachable, name);
      pending := pending[..|pending| - 1] + added;
      reachable := reachable + {name};
    }
    WorkingEnds(reachable, {entry}, next);
    var selected := Chosen(productions, reachable);
    r := Some(Surface(reachable, nonterminals - reachable, IdsOf(selected), TerminalsOf(selected, terminals)));
  }

  lemma {:induction false} Fewer(all: set<string>, done: set<string>, name: string)
    requires name in all && name !in done
    ensures |all - (done + {name})| < |all - done|
  {
    assert all - done == (all - (done + {name})) + {name};
  }

  lemma {:induction false} StartWorking(entry: string, next: Edges)
    ensures Working({}, [entry], {entry}, next)
  {
  }

  /** Running again on the recorded entry, terminals and productions gives the
      same surface. */
  lemma {:induction false} RerunAgrees(entry: string, terminals: set<string>, productions: seq<Production>,
                                       a: Surface, b: Surface)
    requires IsSurface(entry, terminals, productions, a) && IsSurface(entry, terminals, productions, b)
    ensures a == b
  {
    LeastIsUnique(a.reachable, b.reachable, {entry}, Grammar(productions));
  }

  lemma {:induction false} ChosenMembers(productions: seq<Production>, reachable: set<string>, p: Production)
    ensures p in Chosen(productions, reachable) <==> p in productions && p.lhs in reachable
    decreases |productions|
  {
    if productions != [] {
      var k := |productions| - 1;
      ChosenMembers(productions[..k], reachable, p);
      assert productions == productions[..k] + [productions[k]];
    }
  }

  ghost predicate Selects(productions: seq<Production>, reachable: set<string>, i: int) {
    0 <= i < |productions| && productions[i].lhs in reachable
  }

  ghost function Selection(productions: seq<Production>, reachable: set<string>): set<int> {
    set i | 0 <= i < |productions| && Selects(productions, reachable, i)
  }

  lemma {:induction false} ChosenSize(productions: seq<Production>, reachable: set<string>)
    ensures |Chosen(productions, reachable)| == |Selection(productions, reachable)|
    decreases |productions|
  {
    if productions == [] {
      assert Selection(productions, reachable) == {};
    } else {
      var n := |productions| - 1;
      var init := productions[..n];
      ChosenSize(init, reachable);
      assert forall i | 0 <= i < n :: init[i] == productions[i];
      assert Selection(productions, reachable) ==
             Selection(init, reachable) + (if productions[n].lhs in reachable then {n} else {});
      assert n !in Selection(init, reachable);
    }
  }

  /** What the surface lists: the other left sides, the identifier of each production of a
      reached name, and the terminals on their right. */
  lemma {:induction false} SurfaceMeans(entry: string, terminals: set<string>, productions: seq<Production>, s: Surface,
                                        x: string)
    requires IsSurface(entry, terminals, productions, s)
    ensures x in s.unreachable <==> x !in s.reachable && exists p | p in productions :: p.lhs == x
    ensures x in s.selected <==> exists p | p in productions :: p.lhs in s.reachable && p.id == x
    ensures |s.selected| == |Selection(productions, s.reachable)|
    ensures x in s.terminals <==>
            x in terminals && exists p | p in productions :: p.lhs in s.reachable && x in p.symbols
  {
    hide Least, Chosen, Selection;
    var chosen := Chosen(productions, s.reachable);
    forall p ensures p in chosen <==> p in productions && p.lhs in s.reachable {
      ChosenMembers(productions, s.reachable, p);
    }
    ChosenSize(productions, s.reachable);
    if x in s.selected {
      var i :| 0 <= i < |s.selected| && s.selected[i] == x;
      assert chosen[i] in chosen && chosen[i].id == x;
    }
    if p :| p in productions && p.lhs in s.reachable && p.id == x {
      var i :| 0 <= i < |chosen| && chosen[i] == p;
      assert s.selected[i] == x;
    }
  }

  lemma {:induction false} SelectedUses(entry: string, productions: seq<Production>, reachable: set<string>,
                                        n: string)
    requires Least(reachable, {entry}, Grammar(productions)) && entry in Lhs(productions) && n in reachable
    ensures Uses(Chosen(productions, reachable), n) == Uses(productions, n)
  {
    hide Chosen;
    var chosen := Chosen(productions, reachable);
    forall p ensures p in chosen <==> p in productions && p.lhs in reachable {
      ChosenMembers(productions, reachable, p);
    }
    assert Closed(Lhs(productions), Grammar(productions));
    assert reachable <= Lhs(productions);
    assert Grammar(productions)(n) <= reachable;
    forall s | s in reachable ensures s in Lhs(chosen) {
      var p :| p in productions && p.lhs == s;
      assert p in chosen;
    }
  }

  /** The selected productions are a grammar of their own: from them alone the
      entry reaches the same nonterminals. */
  lemma {:induction false} SelectedIsEnough(entry: string, productions: seq<Production>, reachable: set<string>)
    requires Least(reachable, {entry}, Grammar(productions)) && entry in Lhs(productions)
    ensures Least(reachable, {entry}, Grammar(Chosen(productions, reachable)))
  {
    hide Uses, Chosen;
    var all, some := Grammar(productions), Grammar(Chosen(productions, reachable));
    forall n | n in reachable ensures some(n) == all(n) {
      SelectedUses(entry, productions, reachable, n);
    }
    forall t: set<string> | {entry} <= t && Closed(t, some) ensures reachable <= t {
      var both := t * reachable;
      assert Closed(both, all);
      assert reachable <= both;
    }
  }

  // ----- request messages

  datatype Message = Message(prefix: string, types: seq<string>)

  function Resolve(message: Message, type_: string): string {
    if '.' in type_ then type_ else message.prefix + type_
  }

  function Fields(messages: map<string, Message>, name: string): set<string> {
    if name !in messages then {}
    else set t | t in messages[name].types :: if '.' in t then t else messages[name].prefix + t
  }

  ghost function Refers(messages: map<string, Message>): Edges { n => Fields(messages, n) * messages.Keys }

  ghost function Members(list: seq<string>): set<string> { set q | q in list }

  /** The enums that the fields of these messages name. */
  ghost function EnumsOf(messages: map<string, Message>, enums: set<string>, names: set<string>): set<string> {
    set n, t | n in names && t in Fields(messages, n) && t !in messages && t in enums :: t
  }

  method ReadFields(message: Message, messages: map<string, Message>, enums: set<string>, ghost name: string)
      returns (added: seq<string>, used: set<string>)
    requires name in messages && messages[name] == message
    ensures forall m :: m in added <==> m in Fields(messages, name) * messages.Keys
    ensures forall m :: m in used <==> m in Fields(messages, name) && m !in messages && m in enums
  {
    added, used := [], {};
    for i := 0 to |message.types|
      invariant forall m :: m in added <==>
                  m in messages && exists k :: 0 <= k < i && Resolve(message, message.types[k]) == m
      invariant forall m :: m in used <==>
                  && m !in messages && m in enums
                  && exists k :: 0 <= k < i && Resolve(message, message.types[k]) == m
    {
      var resolved := Resolve(message, message.types[i]);
      if resolved in messages {
        added := added + [resolved];
      } else if resolved in enums {
        used := used + {resolved};
      }
    }
    forall m
      ensures m in Fields(messages, name) <==>
              exists k :: 0 <= k < |message.types| && Resolve(message, message.types[k]) == m
    {
      if k :| 0 <= k < |message.types| && Resolve(message, message.types[k]) == m {
        assert message.types[k] in message.types;
      }
    }
  }

  /** Raises, `None`, when a request is not a message; otherwise the messages are
      the least closed set over the requests, and the enums are those they name. */
  method RequestMessages(requests: seq<string>, messages: map<string, Message>, enums: set<string>)
      returns (r: Option<(set<string>, set<string>)>)
    ensures r.Some? <==> forall q | q in requests :: q in messages
    ensures r.Some? ==>
              && Least(r.value.0, Members(requests), Refers(messages)) && r.value.0 <= messages.Keys
              && r.value.1 == EnumsOf(messages, enums, r.value.0)
  {
    hide Fields, Working, Least, EnumsOf;
    ghost var roots, next := Members(requests), Refers(messages);
    var reachable: set<string>, used: set<string>, pending := {}, {}, requests;
    StartWith(requests, next);
    NoEnums(messages, enums);
    while pending != []
      invariant Working(reachable, pending, roots, next)
      invariant reachable <= messages.Keys && forall n | n in pending :: n in requests || n in messages
      invariant used == EnumsOf(messages, enums, reachable)
      decreases |messages.Keys - reachable|, |pending|
    {
      var name := pending[|pending| - 1];
      if name in reachable {
        WorkingSkips(reachable, pending, roots, next);
        pending := pending[..|pending| - 1];
        continue;
      }
      if name !in messages {
        return None;
      }
      var added, more := ReadFields(messages[name], messages, enums, name);
      WorkingTakes(reachable, pending, added, roots, next);
      EnumsGrow(messages, enums, reachable, name, more);
      Fewer(messages.Keys, reachable, name);
      pending := pending[..|pending| - 1] + added;
      reachable := reachable + {name};
      used := used + more;
    }
    WorkingEnds(reachable, roots, next);
    RootsAreIn(reachable, roots, next);
    r := Some((reachable, used));
  }

  lemma {:induction false} NoEnums(messages: map<string, Message>, enums: set<string>)
    ensures EnumsOf(messages, enums, {}) == {}
  {
  }

  lemma {:induction false} EnumsGrow(messages: map<string, Message>, enums: set<string>, names: set<string>,
                                     name: string, more: set<string>)
    requires forall m :: m in more <==> m in Fields(messages, name) && m !in messages && m in enums
    ensures EnumsOf(messages, enums, names + {name}) == EnumsOf(messages, enums, names) + more
  {
    hide Fields;
  }

  lemma {:induction false} RootsAreIn(s: set<string>, roots: set<string>, next: Edges)
    requires Least(s, roots, next)
    ensures roots <= s
  {
  }

  lemma {:induction false} StartWith(requests: seq<string>, next: Edges)
    ensures Working({}, requests, Members(requests), next)
  {
  }
}
