/** Naming an agent's tools for the model, and routing the model's calls back to them. */
module ToolGateway {
  import opened Options

  /** A tool as its source defines it; `spec` stands for its description and input schema. */
  datatype Definition = Definition(server: string, name: string, spec: string) {
    /** The canonical name: `server/tool`, or the bare name of a builtin. */
    function Qualified(): string {
      if server != "" then server + "/" + name else name
    }
  }

  /** What the model is offered. */
  datatype ToolParam = ToolParam(name: string, spec: string)

  /** `qualified_name.replace("/", "__")`. */
  function WireName(qualified: string): string {
    if qualified == "" then ""
    else (if qualified[0] == '/' then "__" else [qualified[0]]) + WireName(qualified[1..])
  }

  function Digit(n: nat): char
    requires n < 10
  {
    "0123456789"[n]
  }

  function Decimal(n: nat): string {
    if n < 10 then [Digit(n)] else Decimal(n / 10) + [Digit(n % 10)]
  }

  function Suffixed(wire: string, n: nat): string {
    wire + "_" + Decimal(n)
  }

  lemma {:induction false} DecimalInjective(m: nat, n: nat)
    requires Decimal(m) == Decimal(n)
    ensures m == n
    decreases m
  {
    DecimalLength(m);
    DecimalLength(n);
    var a, b := Decimal(m), Decimal(n);
    assert a[|a| - 1] == Digit(m % 10) && b[|b| - 1] == Digit(n % 10);
    if m >= 10 {
      assert a[..|a| - 1] == Decimal(m / 10);
      assert b[..|b| - 1] == Decimal(n / 10);
      DecimalInjective(m / 10, n / 10);
    }
  }

  lemma DecimalLength(n: nat)
    ensures |Decimal(n)| >= 1 && (|Decimal(n)| == 1 <==> n < 10)
  {
    if n >= 10 {
      DecimalLength(n / 10);
    }
  }

  lemma SuffixedInjective(wire: string, m: nat, n: nat)
    requires Suffixed(wire, m) == Suffixed(wire, n)
    ensures m == n
  {
    assert Suffixed(wire, m)[|wire| + 1..] == Decimal(m);
    assert Suffixed(wire, n)[|wire| + 1..] == Decimal(n);
    DecimalInjective(m, n);
  }

  /** The least suffix from `n` on whose name is not taken. It exists because every refusal uses up one of
      finitely many taken names. */
  function FreeSuffix(taken: set<string>, wire: string, n: nat): (free: nat)
    ensures n <= free
    ensures Suffixed(wire, free) !in taken
    ensures forall i :: n <= i < free ==> Suffixed(wire, i) in taken
    decreases |taken|
  {
    var name := Suffixed(wire, n);
    if name !in taken then n
    else
      var free := FreeSuffix(taken - {name}, wire, n + 1);
      assert Suffixed(wire, free) != name by {
        if Suffixed(wire, free) == name {
          SuffixedInjective(wire, free, n);
        }
      }
      free
  }

  /** Wire names and what they stand for, with the tools offered under them in order. */
  datatype Table = Table(wires: map<string, string>, resolved: seq<ToolParam>)

  /** The wire name a definition is registered under; `None` if its plain wire name is already its own. */
  function ChosenWire(wires: map<string, string>, qualified: string): Option<string> {
    var wire := WireName(qualified);
    if wire !in wires then Some(wire)
    else if wires[wire] == qualified then None
    else Some(Suffixed(wire, FreeSuffix(wires.Keys, wire, 2)))
  }

  function Added(t: Table, d: Definition): Table {
    match ChosenWire(t.wires, d.Qualified())
    case None => t
    case Some(wire) => Table(t.wires[wire := d.Qualified()], t.resolved + [ToolParam(wire, d.spec)])
  }

  function TableOf(ds: seq<Definition>): Table {
    if ds == [] then Table(map[], []) else Added(TableOf(ds[..|ds| - 1]), ds[|ds| - 1])
  }

  /** The definitions of one adapter that were subscribed to by exact qualified name. */
  function Wanted(provided: seq<Definition>, wanted: set<string>): seq<Definition> {
    if provided == [] then []
    else
      var d := provided[|provided| - 1];
      Wanted(provided[..|provided| - 1], wanted) + (if d.Qualified() in wanted then [d] else [])
  }

  function WantedOfAll(adapters: seq<seq<Definition>>, wanted: set<string>): seq<Definition> {
    if adapters == [] then []
    else WantedOfAll(adapters[..|adapters| - 1], wanted) + Wanted(adapters[|adapters| - 1], wanted)
  }

  /** Everything an agent may be offered: the registry's resolution first, then the adapters' own tools. */
  function Offered(registered: seq<Definition>, adapters: seq<seq<Definition>>, wanted: set<string>): seq<Definition> {
    registered + WantedOfAll(adapters, wanted)
  }

  lemma TableOfSnoc(ds: seq<Definition>, d: Definition)
    ensures TableOf(ds + [d]) == Added(TableOf(ds), d)
  {
    assert (ds + [d])[..|ds|] == ds;
  }

  lemma TableOfNext(ds: seq<Definition>, i: nat)
    requires i < |ds|
    ensures TableOf(ds[..i + 1]) == Added(TableOf(ds[..i]), ds[i])
  {
    assert ds[..i + 1] == ds[..i] + [ds[i]];
    TableOfSnoc(ds[..i], ds[i]);
  }

  /** The table once `done` and the wanted ones of the first `i` of `provided` have been added. */
  function TableUpTo(done: seq<Definition>, provided: seq<Definition>, wanted: set<string>, i: nat): Table
    requires i <= |provided|
  {
    TableOf(done + Wanted(provided[..i], wanted))
  }

  lemma TableUpToNext(done: seq<Definition>, provided: seq<Definition>, wanted: set<string>, i: nat)
    requires i < |provided|
    ensures TableUpTo(done, provided, wanted, i + 1)
         == if provided[i].Qualified() in wanted then Added(TableUpTo(done, provided, wanted, i), provided[i])
            else TableUpTo(done, provided, wanted, i)
  {
    var before := Wanted(provided[..i], wanted);
    WantedSnoc(provided, wanted, i);
    if provided[i].Qualified() in wanted {
      assert done + (before + [provided[i]]) == (done + before) + [provided[i]];
      TableOfSnoc(done + before, provided[i]);
    } else {
      assert before + [] == before;
    }
  }

  lemma WantedSnoc(provided: seq<Definition>, wanted: set<string>, i: nat)
    requires i < |provided|
    ensures Wanted(provided[..i + 1], wanted)
         == Wanted(provided[..i], wanted) + (if provided[i].Qualified() in wanted then [provided[i]] else [])
  {
    assert provided[..i + 1][..i] == provided[..i];
  }

  lemma {:induction false} WantedExactly(provided: seq<Definition>, wanted: set<string>, d: Definition)
    ensures d in Wanted(provided, wanted) <==> d in provided && d.Qualified() in wanted
  {
    if provided != [] {
      var init, last := provided[..|provided| - 1], provided[|provided| - 1];
      WantedExactly(init, wanted, d);
      assert provided == init + [last];
    }
  }

  /** An agent may be offered what the registry resolved and, from each adapter, what it subscribed to by exact
      qualified name: no adapter can pass off a tool of the same local name. */
  lemma {:induction false} OfferedExactly(registered: seq<Definition>, adapters: seq<seq<Definition>>,
                                          wanted: set<string>, d: Definition)
    ensures d in Offered(registered, adapters, wanted) <==>
              d in registered || (d.Qualified() in wanted && exists a :: 0 <= a < |adapters| && d in adapters[a])
  {
    if adapters != [] {
      var n := |adapters| - 1;
      OfferedExactly(registered, adapters[..n], wanted, d);
      WantedExactly(adapters[n], wanted, d);
      assert Offered(registered, adapters, wanted)
          == Offered(registered, adapters[..n], wanted) + Wanted(adapters[n], wanted);
      if a :| 0 <= a < |adapters| && d in adapters[a] {
        assert a < n ==> adapters[..n][a] == adapters[a];
      }
      if a :| 0 <= a < n && d in adapters[..n][a] {
        assert d in adapters[a];
      }
    }
  }

  lemma OfferedSnoc(registered: seq<Definition>, adapters: seq<seq<Definition>>, wanted: set<string>, a: nat)
    requires a < |adapters|
    ensures Offered(registered, adapters[..a + 1], wanted)
         == Offered(registered, adapters[..a], wanted) + Wanted(adapters[a], wanted)
  {
    assert adapters[..a + 1][..a] == adapters[..a];
  }

  // ---------------------------------------------------------------------------
  // Dispatch
  // ---------------------------------------------------------------------------

  datatype Call = Call(id: int, name: string, arguments: string)

  datatype Failure = NotPermitted | InvalidArguments | Blocked | NoAdapter | TimedOut | AdapterRaised

  datatype ToolResult = Succeeded(toolName: string, output: string) | Failed(toolName: string, why: Failure)

  /** What an adapter does with a call that reaches it. */
  datatype Execution = Returned(result: ToolResult) | RanTooLong | Raised

  /** A call as an adapter received it. */
  datatype Reached = Reached(adapter: nat, name: string, args: string)

  /** Argument parsing, routing, guardrails and execution, as seen from the gateway. `adapterCount` adapters
      are registered; an evaluator that fails counts as one that blocks. */
  datatype World = World(
    parse: string -> Option<string>,
    adapterCount: nat,
    supports: (nat, string) -> bool,
    blocks: (Option<nat>, string, string) -> bool,
    execute: (nat, string, string) -> Execution
  )

  /** The first registered adapter, from `i` on, that supports `name`. */
  function Route(w: World, name: string, i: nat): (adapter: Option<nat>)
    ensures adapter.Some? ==> i <= adapter.value < w.adapterCount && w.supports(adapter.value, name)
    ensures adapter.Some? ==> forall j :: i <= j < adapter.value ==> !w.supports(j, name)
    ensures adapter.None? ==> forall j :: i <= j < w.adapterCount ==> !w.supports(j, name)
    decreases w.adapterCount - i
  {
    if i >= w.adapterCount then None else if w.supports(i, name) then Some(i) else Route(w, name, i + 1)
  }

  function Restored(wires: map<string, string>, name: string): string {
    if name in wires then wires[name] else name
  }

  function Arguments(call: Call, w: World): Option<string> {
    w.parse(if call.arguments == "" then "{}" else call.arguments)
  }

  /** What an adapter receives of a call, if one is reached. */
  function ReachedBy(wires: map<string, string>, call: Call, allowed: set<string>, w: World): Option<Reached> {
    var name, args := Restored(wires, call.name), Arguments(call, w);
    var adapter := Route(w, name, 0);
    if call.name !in allowed || args.None? || w.blocks(adapter, name, args.value) || adapter.None? then None
    else Some(Reached(adapter.value, name, args.value))
  }

  class ToolGateway {
    /** What each offered wire name stands for, since the last `ToolsFor`. */
    var wireToQualified: map<string, string>

    constructor ()
      ensures wireToQualified == map[]
    {
      wireToQualified := map[];
    }

    method AddTool(resolved: seq<ToolParam>, d: Definition) returns (r: seq<ToolParam>)
      modifies this
      ensures Table(wireToQualified, r) == Added(Table(old(wireToQualified), resolved), d)
    {
      r := resolved;
      var qualified := d.Qualified();
      var wire := WireName(qualified);
      if wire in wireToQualified && wireToQualified[wire] == qualified {
        return;
      }
      if wire in wireToQualified {
        var suffix := 2;
        ghost var free := FreeSuffix(wireToQualified.Keys, wire, 2);
        while Suffixed(wire, suffix) in wireToQualified
          invariant 2 <= suffix <= free
          decreases free - suffix
        {
          suffix := suffix + 1;
        }
        assert suffix == free;
        wire := Suffixed(wire, suffix);
      }
      wireToQualified := wireToQualified[wire := qualified];
      r := r + [ToolParam(wire, d.spec)];
    }

    method ToolsFor(registered: seq<Definition>, adapters: seq<seq<Definition>>, wanted: set<string>,
                    supportsTools: bool)
      returns (tools: seq<ToolParam>)
      modifies this
      ensures !supportsTools ==> tools == [] && wireToQualified == map[]
      ensures supportsTools ==> Table(wireToQualified, tools) == TableOf(Offered(registered, adapters, wanted))
    {
      wireToQualified := map[];
      tools := [];
      if !supportsTools {
        return;
      }
      assert registered[..0] == [];
      for i := 0 to |registered|
        invariant Table(wireToQualified, tools) == TableOf(registered[..i])
      {
        TableOfNext(registered, i);
        tools := AddTool(tools, registered[i]);
      }
      tools := AddAdapters(tools, registered, adapters, wanted);
    }

    method AddAdapters(resolved: seq<ToolParam>, ghost registered: seq<Definition>, adapters: seq<seq<Definition>>,
                       wanted: set<string>)
      returns (r: seq<ToolParam>)
      requires Table(wireToQualified, resolved) == TableOf(registered[..|registered|])
      modifies this
      ensures Table(wireToQualified, r) == TableOf(Offered(registered, adapters, wanted))
    {
      r := resolved;
      assert registered[..|registered|] == Offered(registered, adapters[..0], wanted);
      for a := 0 to |adapters|
        invariant Table(wireToQualified, r) == TableOf(Offered(registered, adapters[..a], wanted))
      {
        r := AddWanted(r, adapters[a], wanted, Offered(registered, adapters[..a], wanted));
        OfferedSnoc(registered, adapters, wanted, a);
      }
      assert adapters[..|adapters|] == adapters;
    }

    /** One adapter's own tools, after the definitions `done`. */
    method AddWanted(resolved: seq<ToolParam>, provided: seq<Definition>, wanted: set<string>,
                     ghost done: seq<Definition>)
      returns (r: seq<ToolParam>)
      requires Table(wireToQualified, resolved) == TableOf(done)
      modifies this
      ensures Table(wireToQualified, r) == TableOf(done + Wanted(provided, wanted))
    {
      r := resolved;
      assert done + Wanted(provided[..0], wanted) == done;
      for i := 0 to |provided|
        invariant Table(wireToQualified, r) == TableUpTo(done, provided, wanted, i)
      {
        TableUpToNext(done, provided, wanted, i);
        if provided[i].Qualified() in wanted {
          r := AddTool(r, provided[i]);
        }
      }
      assert provided[..|provided|] == provided;
    }

    /** Every outcome is a result, never an exception. An adapter is reached exactly when the name was
        allowed, the arguments are an object, no guardrail blocks, and some adapter supports the name the
        wire name stands for; and it is reached with that name. */
    method Dispatch(call: Call, allowed: set<string>, w: World) returns (result: ToolResult, reached: Option<Reached>)
      ensures reached == ReachedBy(wireToQualified, call, allowed, w)
      ensures var name, args := Restored(wireToQualified, call.name), Arguments(call, w);
              var adapter := Route(w, name, 0);
              && (reached.Some? <==> call.name in allowed && args.Some? && adapter.Some?
                                     && !w.blocks(adapter, name, args.value))
              && (reached.Some? ==> reached.value == Reached(adapter.value, name, args.value))
      ensures call.name !in allowed ==> reached.None? && result == Failed(call.name, NotPermitted)
      ensures call.name in allowed ==> Answered(wireToQualified, call, w, result, reached)
    {
      reached := None;
      if call.name !in allowed {
        return Failed(call.name, NotPermitted), None;
      }
      var name := if call.name in wireToQualified then wireToQualified[call.name] else call.name;
      var args := w.parse(if call.arguments == "" then "{}" else call.arguments);
      if args.None? {
        return Failed(name, InvalidArguments), None;
      }
      var adapter := Route(w, name, 0);
      if w.blocks(adapter, name, args.value) {
        return Failed(name, Blocked), None;
      }
      if adapter.None? {
        return Failed(name, NoAdapter), None;
      }
      reached := Some(Reached(adapter.value, name, args.value));
      match w.execute(adapter.value, name, args.value)
      case RanTooLong => result := Failed(name, TimedOut);
      case Raised => result := Failed(name, AdapterRaised);
      case Returned(r) => result := r;
    }
  }

  /** What a permitted call comes back with. Refusals come in the order bad arguments, a guardrail, no adapter. A call
      that reaches its adapter, the first to support the tool, gets what the adapter returned, as it was; an adapter
      that ran too long or raised makes it fail under the tool's own name. */
  ghost predicate Answered(wires: map<string, string>, call: Call, w: World, result: ToolResult,
                           reached: Option<Reached>) {
    var tool := if call.name in wires then wires[call.name] else call.name;
    var args := w.parse(if call.arguments == "" then "{}" else call.arguments);
    if args == None then reached == None && result == Failed(tool, InvalidArguments)
    else if forall a :: 0 <= a < w.adapterCount ==> !w.supports(a, tool) then
      && reached == None
      && result == Failed(tool, if w.blocks(None, tool, args.value) then Blocked else NoAdapter)
    else
      exists a :: 0 <= a < w.adapterCount && FirstToSupport(w, tool, a)
        && if w.blocks(Some(a), tool, args.value) then reached == None && result == Failed(tool, Blocked)
           else reached == Some(Reached(a, tool, args.value)) && Executed(w.execute(a, tool, args.value), tool, result)
  }

  ghost predicate FirstToSupport(w: World, tool: string, a: nat) {
    w.supports(a, tool) && forall j :: 0 <= j < a ==> !w.supports(j, tool)
  }

  predicate Executed(e: Execution, tool: string, result: ToolResult) {
    match e
    case Returned(r) => result == r
    case RanTooLong => result == Failed(tool, TimedOut)
    case Raised => result == Failed(tool, AdapterRaised)
  }

  // ---------------------------------------------------------------------------
  // The naming
  // ---------------------------------------------------------------------------

  function NamesOf(resolved: seq<ToolParam>): set<string> {
    set p | p in resolved :: p.name
  }

  /** The tool is offered under a wire name that restores the qualified name of `d`, with `d`'s own specification. */
  predicate IsFor(wires: map<string, string>, p: ToolParam, d: Definition) {
    p.name in wires && wires[p.name] == d.Qualified() && p.spec == d.spec
  }

  lemma {:induction false} WireNameJoins(a: string, b: string)
    ensures WireName(a + b) == WireName(a) + WireName(b)
  {
    if a == "" {
      assert a + b == b;
    } else {
      assert (a + b)[1..] == a[1..] + b;
      WireNameJoins(a[1..], b);
    }
  }

  lemma {:induction false} WireNameOfPlain(name: string)
    requires '/' !in name
    ensures WireName(name) == name
  {
    if name != "" {
      WireNameOfPlain(name[1..]);
    }
  }

  lemma SuffixedFrom2(wires: map<string, string>, wire: string)
    ensures var n := FreeSuffix(wires.Keys, wire, 2);
            && n >= 2 && Suffixed(wire, n) == wire + "_" + Decimal(n) && wire + "_" + Decimal(n) !in wires
            && forall i :: 2 <= i < n ==> wire + "_" + Decimal(i) in wires
  {
    forall i | 2 <= i < FreeSuffix(wires.Keys, wire, 2)
      ensures wire + "_" + Decimal(i) in wires
    {
      assert Suffixed(wire, i) in wires.Keys;
    }
  }

  /** A tool of a server goes by both names with `__` between, and a builtin by its own, unless that is taken by
      another tool: then by the first of that name's numbered variants, from 2 up, that is free. */
  lemma NamedAfterItself(wires: map<string, string>, d: Definition)
    requires '/' !in d.server && '/' !in d.name
    ensures var wire := if d.server == "" then d.name else d.server + "__" + d.name;
            var chosen := ChosenWire(wires, if d.server == "" then d.name else d.server + "/" + d.name);
            && (wire !in wires ==> chosen == Some(wire))
            && (wire in wires && wires[wire] == d.Qualified() ==> chosen == None)
            && (wire in wires && wires[wire] != d.Qualified() ==>
                  exists n :: n >= 2 && chosen == Some(wire + "_" + Decimal(n)) && wire + "_" + Decimal(n) !in wires
                              && forall i :: 2 <= i < n ==> wire + "_" + Decimal(i) in wires)
  {
    var wire := if d.server == "" then d.name else d.server + "__" + d.name;
    WireNameOfPlain(d.name);
    if d.server != "" {
      WireNameOfPlain(d.server);
      WireNameJoins(d.server + "/", d.name);
      WireNameJoins(d.server, "/");
    }
    assert WireName(d.Qualified()) == wire;
    SuffixedFrom2(wires, wire);
  }

  /** Both maps have the same keys, no name is offered twice, and every tool offered is some definition's own. */
  ghost predicate Sound(t: Table, ds: seq<Definition>) {
    && t.wires.Keys == NamesOf(t.resolved)
    && (forall j, k :: 0 <= j < k < |t.resolved| ==> t.resolved[j].name != t.resolved[k].name)
    && (forall p :: p in t.resolved ==> exists d :: d in ds && IsFor(t.wires, p, d))
  }

  lemma ChosenWireIsFree(wires: map<string, string>, qualified: string)
    ensures var w := ChosenWire(wires, qualified); w.Some? ==> w.value !in wires
  {
  }

  lemma AddedIsSound(t: Table, ds: seq<Definition>, d: Definition)
    requires Sound(t, ds)
    ensures Sound(Added(t, d), ds + [d])
  {
    var t' := Added(t, d);
    ChosenWireIsFree(t.wires, d.Qualified());
    forall p | p in t'.resolved
      ensures exists e :: e in ds + [d] && IsFor(t'.wires, p, e)
    {
      if p in t.resolved {
        assert p.name in NamesOf(t.resolved);
        var e :| e in ds && IsFor(t.wires, p, e);
        assert e in ds + [d] && IsFor(t'.wires, p, e);
      } else {
        assert d in ds + [d] && IsFor(t'.wires, p, d);
      }
    }
    AddedNames(t, d);
    forall j, k | 0 <= j < k < |t'.resolved|
      ensures t'.resolved[j].name != t'.resolved[k].name
    {
      assert t.resolved[j] in t.resolved;
      assert t.resolved[j].name in NamesOf(t.resolved);
    }
  }

  lemma AddedNames(t: Table, d: Definition)
    requires t.wires.Keys == NamesOf(t.resolved)
    ensures Added(t, d).wires.Keys == NamesOf(Added(t, d).resolved)
  {
    var chosen := ChosenWire(t.wires, d.Qualified());
    if chosen.Some? {
      var p := ToolParam(chosen.value, d.spec);
      assert NamesOf(t.resolved + [p]) == NamesOf(t.resolved) + {p.name} by {
        assert p in t.resolved + [p];
        forall q | q in t.resolved
          ensures q in t.resolved + [p]
        {
        }
      }
    }
  }

  lemma {:induction false} TableIsSound(ds: seq<Definition>)
    ensures Sound(TableOf(ds), ds)
  {
    if ds != [] {
      var init, last := ds[..|ds| - 1], ds[|ds| - 1];
      assert ds == init + [last];
      TableIsSound(init);
      AddedIsSound(TableOf(init), init, last);
    }
  }

  /** Entries, once made, never change: a later definition neither takes over a wire name nor reorders. */
  lemma {:induction false} EntriesAreKept(ds: seq<Definition>, n: nat)
    requires n <= |ds|
    ensures TableOf(ds[..n]).resolved <= TableOf(ds).resolved
    ensures forall w :: w in TableOf(ds[..n]).wires ==>
              w in TableOf(ds).wires && TableOf(ds).wires[w] == TableOf(ds[..n]).wires[w]
    decreases |ds|
  {
    if n == |ds| {
      assert ds[..n] == ds;
    } else {
      assert ds[..|ds| - 1][..n] == ds[..n];
      EntriesAreKept(ds[..|ds| - 1], n);
      ChosenWireIsFree(TableOf(ds[..|ds| - 1]).wires, ds[|ds| - 1].Qualified());
    }
  }

  /** No definition is dropped: each is offered under some wire name that restores its qualified name. */
  lemma EveryDefinitionIsReachable(ds: seq<Definition>, i: nat)
    requires i < |ds|
    ensures exists w :: w in TableOf(ds).wires && TableOf(ds).wires[w] == ds[i].Qualified()
  {
    var before := TableOf(ds[..i]).wires;
    var q := ds[i].Qualified();
    assert ds[..i + 1][..i] == ds[..i];
    var after := TableOf(ds[..i + 1]).wires;
    var chosen := ChosenWire(before, q);
    var w := if chosen.Some? then chosen.value else WireName(q);
    assert w in after && after[w] == q;
    EntriesAreKept(ds, i + 1);
  }

  /** The plain wire name of `qualified` stands for `qualified` itself. */
  predicate HoldsPlainName(wires: map<string, string>, qualified: string) {
    WireName(qualified) in wires && wires[WireName(qualified)] == qualified
  }

  ghost predicate OneWireEach(wires: map<string, string>) {
    forall v, w :: v in wires && w in wires && wires[v] == wires[w] ==> v == w
  }

  /** Whenever a qualified name is defined again, its plain wire name is its own: the early return is taken. */
  ghost predicate RepeatsHoldPlainName(ds: seq<Definition>) {
    forall i, j :: 0 <= i < j < |ds| && ds[i].Qualified() == ds[j].Qualified() ==>
      HoldsPlainName(TableOf(ds[..j]).wires, ds[j].Qualified())
  }

  lemma WiresComeFromDefinitions(ds: seq<Definition>, w: string)
    requires w in TableOf(ds).wires
    ensures exists d :: d in ds && d.Qualified() == TableOf(ds).wires[w]
  {
    TableIsSound(ds);
    var t := TableOf(ds);
    assert w in NamesOf(t.resolved);
    var p :| p in t.resolved && p.name == w;
    var d :| d in ds && IsFor(t.wires, p, d);
  }

  lemma RepeatsHoldBefore(ds: seq<Definition>, n: nat)
    requires n <= |ds| && RepeatsHoldPlainName(ds)
    ensures RepeatsHoldPlainName(ds[..n])
  {
    forall i, j | 0 <= i < j < n && ds[..n][i].Qualified() == ds[..n][j].Qualified()
      ensures HoldsPlainName(TableOf(ds[..n][..j]).wires, ds[..n][j].Qualified())
    {
      assert ds[..n][..j] == ds[..j];
      assert ds[i].Qualified() == ds[j].Qualified();
    }
  }

  /** A name that has a wire name already, and whose repeats hold their plain one, gains none. */
  lemma KnownNameGainsNone(ds: seq<Definition>, n: nat, w: string)
    requires n < |ds| && RepeatsHoldPlainName(ds)
    requires w in TableOf(ds[..n]).wires && TableOf(ds[..n]).wires[w] == ds[n].Qualified()
    ensures ChosenWire(TableOf(ds[..n]).wires, ds[n].Qualified()) == None
  {
    WiresComeFromDefinitions(ds[..n], w);
    var d :| d in ds[..n] && d.Qualified() == ds[n].Qualified();
    var i :| 0 <= i < n && ds[i] == d;
    assert HoldsPlainName(TableOf(ds[..n]).wires, ds[n].Qualified());
  }

  lemma {:induction false} RepeatsHoldingIsOneWire(ds: seq<Definition>)
    requires RepeatsHoldPlainName(ds)
    ensures OneWireEach(TableOf(ds).wires)
  {
    if ds != [] {
      var n := |ds| - 1;
      var before, q := TableOf(ds[..n]).wires, ds[n].Qualified();
      RepeatsHoldBefore(ds, n);
      RepeatsHoldingIsOneWire(ds[..n]);
      forall w | w in before && before[w] == q
        ensures ChosenWire(before, q) == None
      {
        KnownNameGainsNone(ds, n, w);
      }
    }
  }

  /** A name that does not hold its plain wire name gains a new wire name whenever it is defined. */
  lemma LoserGainsWire(ds: seq<Definition>, j: nat) returns (w: string)
    requires j < |ds|
    requires !HoldsPlainName(TableOf(ds[..j]).wires, ds[j].Qualified())
    ensures w !in TableOf(ds[..j]).wires
    ensures w in TableOf(ds).wires && TableOf(ds).wires[w] == ds[j].Qualified()
  {
    w := AddedLoser(TableOf(ds[..j]), ds[j]);
    TableOfNext(ds, j);
    EntriesAreKept(ds, j + 1);
  }

  lemma AddedLoser(t: Table, d: Definition) returns (w: string)
    requires !HoldsPlainName(t.wires, d.Qualified())
    ensures w !in t.wires && w in Added(t, d).wires && Added(t, d).wires[w] == d.Qualified()
  {
    ChosenWireIsFree(t.wires, d.Qualified());
    w := ChosenWire(t.wires, d.Qualified()).value;
  }

  lemma LoserTwiceIsTwoWires(ds: seq<Definition>, i: nat, j: nat)
    requires i < j < |ds| && ds[i].Qualified() == ds[j].Qualified()
    requires !HoldsPlainName(TableOf(ds[..j]).wires, ds[j].Qualified())
    ensures !OneWireEach(TableOf(ds).wires)
  {
    EveryDefinitionIsReachable(ds[..j], i);
    var v :| v in TableOf(ds[..j]).wires && TableOf(ds[..j]).wires[v] == ds[..j][i].Qualified();
    var w := LoserGainsWire(ds, j);
    EntriesAreKept(ds, j);
  }

  /** A qualified name gets exactly one wire name, unless it is defined again after losing its plain one. */
  lemma OneWireExactly(ds: seq<Definition>)
    ensures OneWireEach(TableOf(ds).wires) <==> RepeatsHoldPlainName(ds)
  {
    if RepeatsHoldPlainName(ds) {
      RepeatsHoldingIsOneWire(ds);
    } else {
      var i, j :| 0 <= i < j < |ds| && ds[i].Qualified() == ds[j].Qualified() &&
                  !HoldsPlainName(TableOf(ds[..j]).wires, ds[j].Qualified());
      LoserTwiceIsTwoWires(ds, i, j);
    }
  }

  /** The qualified name of the first definition with this plain wire name. */
  function Claimant(ds: seq<Definition>, wire: string): Option<string> {
    if ds == [] then None
    else
      var before, last := Claimant(ds[..|ds| - 1], wire), ds[|ds| - 1].Qualified();
      if before.None? && WireName(last) == wire then Some(last) else before
  }

  /** No definition's plain wire name reads like another's with a suffix. */
  ghost predicate NoSuffixClash(ds: seq<Definition>) {
    forall d, e, n: nat :: d in ds && e in ds ==>
      WireName(d.Qualified()) != Suffixed(WireName(e.Qualified()), n)
  }

  /** What one more definition does to a wire name that no suffix can make. */
  lemma AddedPlain(t: Table, d: Definition, wire: string)
    requires forall n: nat :: wire != Suffixed(WireName(d.Qualified()), n)
    ensures var wires := Added(t, d).wires;
            && (wire in t.wires ==> wire in wires && wires[wire] == t.wires[wire])
            && (wire !in t.wires ==> (wire in wires <==> WireName(d.Qualified()) == wire))
            && (wire !in t.wires && wire in wires ==> wires[wire] == d.Qualified())
  {
    ChosenWireIsFree(t.wires, d.Qualified());
  }

  lemma {:induction false} ClaimantHolds(ds: seq<Definition>, j: nat, d: Definition)
    requires j <= |ds| && NoSuffixClash(ds) && d in ds
    ensures HeldByClaimant(ds[..j], WireName(d.Qualified()))
  {
    if j > 0 {
      ClaimantHolds(ds, j - 1, d);
      assert ds[j - 1] in ds;
      ClaimantHoldsNext(ds, j - 1, WireName(d.Qualified()));
    }
  }

  predicate HeldByClaimant(ds: seq<Definition>, wire: string) {
    Claimant(ds, wire) == if wire in TableOf(ds).wires then Some(TableOf(ds).wires[wire]) else None
  }

  lemma ClaimantHoldsNext(ds: seq<Definition>, j: nat, wire: string)
    requires j < |ds| && HeldByClaimant(ds[..j], wire)
    requires forall n: nat :: wire != Suffixed(WireName(ds[j].Qualified()), n)
    ensures HeldByClaimant(ds[..j + 1], wire)
  {
    TableOfNext(ds, j);
    AddedPlain(TableOf(ds[..j]), ds[j], wire);
    ClaimantNext(ds, j, wire);
  }

  lemma ClaimantNext(ds: seq<Definition>, j: nat, wire: string)
    requires j < |ds|
    ensures Claimant(ds[..j + 1], wire)
         == if Claimant(ds[..j], wire).None? && WireName(ds[j].Qualified()) == wire then Some(ds[j].Qualified())
            else Claimant(ds[..j], wire)
  {
    assert ds[..j + 1][..j] == ds[..j];
  }

  lemma {:induction false} ClaimIsKept(ds: seq<Definition>, j: nat, wire: string)
    requires j <= |ds| && Claimant(ds[..j], wire).Some?
    ensures Claimant(ds, wire) == Claimant(ds[..j], wire)
    decreases |ds|
  {
    if j == |ds| {
      assert ds[..j] == ds;
    } else {
      assert ds[..|ds| - 1][..j] == ds[..j];
      ClaimIsKept(ds[..|ds| - 1], j, wire);
    }
  }

  lemma ClaimIsMade(ds: seq<Definition>, i: nat)
    requires i < |ds|
    ensures Claimant(ds, WireName(ds[i].Qualified())).Some?
  {
    var wire := WireName(ds[i].Qualified());
    assert ds[..i + 1][..i] == ds[..i];
    assert Claimant(ds[..i + 1], wire).Some?;
    ClaimIsKept(ds, i + 1, wire);
  }

  /** Every qualified name defined twice is the first of those that share its plain wire name. */
  ghost predicate RepeatsClaimPlainName(ds: seq<Definition>) {
    forall i, j :: 0 <= i < j < |ds| && ds[i].Qualified() == ds[j].Qualified() ==> ClaimsItsName(ds, j)
  }

  predicate ClaimsItsName(ds: seq<Definition>, j: nat)
    requires j < |ds|
  {
    Claimant(ds, WireName(ds[j].Qualified())) == Some(ds[j].Qualified())
  }

  lemma RepeatHoldsExactly(ds: seq<Definition>, i: nat, j: nat)
    requires NoSuffixClash(ds) && i < j < |ds| && ds[i].Qualified() == ds[j].Qualified()
    ensures HoldsPlainName(TableOf(ds[..j]).wires, ds[j].Qualified()) <==> ClaimsItsName(ds, j)
  {
    ClaimantHolds(ds, j, ds[j]);
    ClaimIsMade(ds[..j], i);
    ClaimIsKept(ds, j, WireName(ds[j].Qualified()));
  }

  /** In terms of the definitions alone, where no plain name looks like a suffixed one: each qualified name gets one
      wire name if and only if no name is defined again that came second to its plain wire name. */
  lemma OneWireByClaims(ds: seq<Definition>)
    requires NoSuffixClash(ds)
    ensures OneWireEach(TableOf(ds).wires) <==> RepeatsClaimPlainName(ds)
  {
    OneWireExactly(ds);
    if RepeatsClaimPlainName(ds) {
      forall i, j | 0 <= i < j < |ds| && ds[i].Qualified() == ds[j].Qualified()
        ensures HoldsPlainName(TableOf(ds[..j]).wires, ds[j].Qualified())
      {
        RepeatHoldsExactly(ds, i, j);
      }
    } else {
      var i, j :| 0 <= i < j < |ds| && ds[i].Qualified() == ds[j].Qualified() && !ClaimsItsName(ds, j);
      RepeatHoldsExactly(ds, i, j);
    }
  }

  /** The tool `a__b`, coming second to `a/b` and then provided again, is offered twice. */
  lemma LoserIsOfferedTwice(spec: string)
    ensures var first, loser := Definition("a", "b", spec), Definition("", "a__b", spec);
            !OneWireEach(TableOf([first, loser, loser]).wires)
  {
    var first, loser := Definition("a", "b", spec), Definition("", "a__b", spec);
    var ds := [first, loser, loser];
    assert first.Qualified() == ['a', '/', 'b'];
    assert WireName("b") == "b" && WireName("/b") == "__b" && WireName("a/b") == "a__b" by {
      assert "/b"[1..] == "b" && "a/b"[1..] == "/b";
    }
    assert WireName("a__b") == "a__b" by {
      assert "a__b"[1..] == "__b" && "__b"[1..] == "_b" && "_b"[1..] == "b";
    }
    assert TableOf(ds[..1]).wires == map["a__b" := "a/b"] by {
      assert ds[..1][..0] == [] && ds[..1][0] == first;
    }
    assert ds[..2][..1] == ds[..1];
    EntriesAreKept(ds[..2], 1);
    assert !HoldsPlainName(TableOf(ds[..2]).wires, loser.Qualified());
    LoserTwiceIsTwoWires(ds, 1, 2);
  }

  // ---------------------------------------------------------------------------
  // Wire names fit a provider's grammar
  // ---------------------------------------------------------------------------

  lemma {:induction false} WireNameHasNoSlash(q: string)
    ensures '/' !in WireName(q)
  {
    if q != "" {
      WireNameHasNoSlash(q[1..]);
    }
  }

  lemma {:induction false} DecimalHasNoSlash(n: nat)
    ensures '/' !in Decimal(n)
  {
    if n >= 10 {
      DecimalHasNoSlash(n / 10);
    }
  }

  /** Providers reject a slash in a tool name: no offered name has one. */
  lemma {:induction false} OfferedNamesHaveNoSlash(ds: seq<Definition>, w: string)
    requires w in TableOf(ds).wires
    ensures '/' !in w
  {
    var before, q := TableOf(ds[..|ds| - 1]).wires, ds[|ds| - 1].Qualified();
    if w in before {
      OfferedNamesHaveNoSlash(ds[..|ds| - 1], w);
    } else {
      WireNameHasNoSlash(q);
      DecimalHasNoSlash(FreeSuffix(before.Keys, WireName(q), 2));
    }
  }

  /** Adapter `a` is the first to support the qualified name of `d`. */
  ghost predicate IsHome(w: World, a: nat, d: Definition) {
    a < w.adapterCount && w.supports(a, d.Qualified()) && forall b :: 0 <= b < a ==> !w.supports(b, d.Qualified())
  }

  /** What keeps a call for `d` from every adapter. */
  predicate Stopped(call: Call, w: World, d: Definition) {
    var home, args := Route(w, d.Qualified(), 0), Arguments(call, w);
    args.None? || home.None? || w.blocks(home, d.Qualified(), args.value)
  }

  /** The call reaches the home of `d` under `d`'s own name, unless its arguments do not parse, a guardrail blocks
      it or no adapter supports `d`. */
  ghost predicate GoesHome(reached: Option<Reached>, call: Call, w: World, d: Definition) {
    && (reached.None? <==> Stopped(call, w, d))
    && (reached.Some? ==> var r := reached.value;
                          IsHome(w, r.adapter, d) && r.name == d.Qualified() && Arguments(call, w) == Some(r.args))
  }

  /** Of an agent that allows what it was offered: a call goes home to the very definition offered under its name, and
      a name not offered reaches no adapter. */
  lemma OfferedCallsGoHome(registered: seq<Definition>, adapters: seq<seq<Definition>>, wanted: set<string>,
                           call: Call, w: World)
    ensures var ds := Offered(registered, adapters, wanted);
            var t := TableOf(ds);
            var reached := ReachedBy(t.wires, call, NamesOf(t.resolved), w);
            && (call.name !in NamesOf(t.resolved) ==> reached.None?)
            && (forall p :: p in t.resolved && p.name == call.name ==>
                  exists d :: d in ds && d.spec == p.spec && GoesHome(reached, call, w, d))
  {
    var ds := Offered(registered, adapters, wanted);
    var t := TableOf(ds);
    TableIsSound(ds);
    forall p | p in t.resolved && p.name == call.name
      ensures exists d :: d in ds && d.spec == p.spec
                          && GoesHome(ReachedBy(t.wires, call, NamesOf(t.resolved), w), call, w, d)
    {
      var d :| d in ds && IsFor(t.wires, p, d);
      CallGoesHome(t, call, w, p, d);
    }
  }

  lemma CallGoesHome(t: Table, call: Call, w: World, p: ToolParam, d: Definition)
    requires p in t.resolved && p.name == call.name && IsFor(t.wires, p, d)
    ensures GoesHome(ReachedBy(t.wires, call, NamesOf(t.resolved), w), call, w, d)
  {
    assert p.name in NamesOf(t.resolved);
    assert Restored(t.wires, call.name) == d.Qualified();
  }
}
