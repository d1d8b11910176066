/** The MCP registrar: deriving a server from a tool name, and counting sightings
    per tenant and server across batches. */
module McpRegistrar {
  import opened Options
  import opened Text

  // ---- server names ----

  const KNOWN: seq<string> :=
    ["mcp_filesystem", "mcp_code_exec", "mcp_browser", "mcp_github", "mcp_memory", "mcp_slack"]

  predicate StartsWith(s: string, prefix: string) {
    prefix <= s
  }

  predicate Underscore(c: char) {
    c == '_'
  }

  /** The tool is the server itself or one of its tools. */
  predicate Belongs(tool: string, server: string) {
    tool == server || StartsWith(tool, server + "_")
  }

  function FirstKnown(tool: string, known: seq<string>): Option<string> {
    if known == [] then None
    else if Belongs(tool, known[0]) then Some(known[0])
    else FirstKnown(tool, known[1..])
  }

  function Fallback(tool: string): string {
    var parts := Split(tool, Underscore);
    if |parts| < 3 then tool else parts[0] + "_" + parts[1]
  }

  function Derive(tool: string, known: seq<string>): Option<string> {
    if !StartsWith(tool, "mcp_") then None
    else if FirstKnown(tool, known).Some? then FirstKnown(tool, known)
    else Some(Fallback(tool))
  }

  /** Longest names first, all of them MCP names. */
  ghost predicate Ordered(known: seq<string>) {
    && (forall i, j :: 0 <= i < j < |known| ==> |known[i]| >= |known[j]|)
    && (forall i :: 0 <= i < |known| ==> StartsWith(known[i], "mcp_"))
  }

  lemma KnownOrdered()
    ensures Ordered(KNOWN)
  {
    assert "mcp_"[..] == "mcp_";
  }

  lemma {:induction false} FirstKnownIsLongest(tool: string, known: seq<string>)
    requires Ordered(known)
    ensures match FirstKnown(tool, known)
            case None => forall k :: k in known ==> !Belongs(tool, k)
            case Some(p) => p in known && Belongs(tool, p) && forall k :: k in known && Belongs(tool, k) ==> |k| <= |p|
  {
    if known != [] && !Belongs(tool, known[0]) {
      FirstKnownIsLongest(tool, known[1..]);
      assert known == [known[0]] + known[1..];
    } else if known != [] {
      forall k | k in known ensures |k| <= |known[0]| { }
    }
  }

  /** An MCP tool of a known server derives to the longest such server name; any
      other MCP tool to its first two segments. */
  lemma DeriveIsLongestMatch(tool: string, known: seq<string>)
    requires Ordered(known)
    ensures match Derive(tool, known)
            case None => !StartsWith(tool, "mcp_")
            case Some(p) =>
              && StartsWith(tool, "mcp_")
              && (if exists k :: k in known && (tool == k || k + "_" <= tool) then
                    && p in known && (tool == p || p + "_" <= tool)
                    && forall k :: k in known && (tool == k || k + "_" <= tool) ==> |k| <= |p|
                  else p == Fallback(tool))
  {
    assert forall k :: Belongs(tool, k) <==> tool == k || k + "_" <= tool;
    FirstKnownIsLongest(tool, known);
  }

  predicate Segment(s: string) {
    forall i :: 0 <= i < |s| ==> s[i] != '_'
  }

  lemma SplitsAfter(a: string, rest: string)
    requires Segment(a)
    ensures Split(a + ("_" + rest), Underscore) == [a] + Split(rest, Underscore)
  {
    var s := a + ("_" + rest);
    SplitAt(s, Underscore, |a|);
    assert s[..|a|] == a && s[|a| + 1..] == rest;
  }

  lemma FallbackOfTwo(a: string, b: string)
    requires Segment(a) && Segment(b)
    ensures Fallback(a + ("_" + b)) == a + ("_" + b)
  {
    SplitsAfter(a, b);
    SplitNot(b, Underscore);
  }

  lemma FallbackOfMore(a: string, b: string, c: string)
    requires Segment(a) && Segment(b)
    ensures Fallback(a + ("_" + (b + ("_" + c)))) == a + ("_" + b)
  {
    SplitsAfter(a, b + ("_" + c));
    SplitsAfter(b, c);
  }

  lemma McpTool(tool: string) returns (rest: string)
    requires StartsWith(tool, "mcp_")
    ensures tool == "mcp" + ("_" + rest)
  {
    rest := tool[4..];
    assert tool == "mcp_" + rest;
  }

  lemma FallbackFacts(tool: string)
    requires StartsWith(tool, "mcp_")
    ensures var p := Fallback(tool);
            && StartsWith(p, "mcp_") && Fallback(p) == p && (p == tool || StartsWith(tool, p + "_"))
  {
    var rest := McpTool(tool);
    var i := IndexOf(rest, Underscore);
    var b := rest[..i];
    FallbackOfTwo("mcp", b);
    if i < |rest| {
      var c := rest[i + 1..];
      assert rest == b + ("_" + c);
      FallbackOfMore("mcp", b, c);
      assert tool == ("mcp" + ("_" + b)) + "_" + c;
    } else {
      assert rest == b;
    }
  }

  /** Deriving a second time changes nothing. */
  lemma DeriveIdempotent(tool: string, known: seq<string>)
    requires Ordered(known) && Derive(tool, known).Some?
    ensures Derive(Derive(tool, known).value, known) == Derive(tool, known)
  {
    var p := Derive(tool, known).value;
    FirstKnownIsLongest(tool, known);
    FirstKnownIsLongest(p, known);
    FallbackFacts(tool);
    if FirstKnown(tool, known).Some? {
      var q := FirstKnown(p, known).value;
      assert |q| >= |p| && (p == q || |p| > |q|);
    } else if FirstKnown(p, known).Some? {
      var q := FirstKnown(p, known).value;
      BelongsThrough(tool, p, q);
      assert false;
    }
  }

  lemma BelongsThrough(tool: string, p: string, q: string)
    requires Belongs(tool, p) && Belongs(p, q)
    ensures Belongs(tool, q)
  {
  }

  // ---- sightings ----

  /** Empty strings stand for missing entries. */
  datatype Event = Event(eventType: string, rawTool: string, rawCategory: string, tool: string, tenant: string)

  datatype Key = Key(tenant: string, server: string)

  datatype Sighting = Sighting(count: nat, tools: set<string>)

  /** Every server row: its connection count and capabilities. */
  type Servers = map<Key, Sighting>

  function ToolName(e: Event): string {
    if e.rawTool != "" then e.rawTool else e.tool
  }

  function KeyOf(e: Event): Option<Key> {
    if e.eventType != "TOOL_CALL" then None
    else if e.rawCategory != "mcp_tool" && !StartsWith(ToolName(e), "mcp_") then None
    else if e.tenant == "" then None
    else
      match Derive(ToolName(e), KNOWN)
      case None => None
      case Some(s) => if s == "" then None else Some(Key(e.tenant, s))
  }

  /** The raw event's tool, or else the event's own. */
  predicate Names(e: Event, tool: string) {
    (e.rawTool != "" && tool == e.rawTool) || (e.rawTool == "" && tool == e.tool)
  }

  /** Counted are the tool calls of some tenant whose tool starts with "mcp_", for the tenant
      and the server of that tool. The tool's category makes no difference. */
  lemma CountedIff(e: Event, k: Key, tool: string)
    requires Names(e, tool)
    ensures ToolName(e) == tool
    ensures KeyOf(e) == Some(k) <==>
            && e.eventType == "TOOL_CALL" && |tool| >= 4 && tool[..4] == "mcp_"
            && e.tenant != "" && k.tenant == e.tenant && Derive(tool, KNOWN) == Some(k.server)
  {
    if |tool| >= 4 && tool[..4] == "mcp_" { NeverNameless(tool); }
  }

  lemma NeverNameless(tool: string)
    requires StartsWith(tool, "mcp_")
    ensures Derive(tool, KNOWN).Some? && Derive(tool, KNOWN).value != ""
  {
    KnownOrdered();
    FirstKnownIsLongest(tool, KNOWN);
    assert forall k :: k in KNOWN ==> k != "";
  }

  function Seen(s: Servers, k: Key): Sighting {
    if k in s then s[k] else Sighting(0, {})
  }

  function Sightings(events: seq<Event>): Servers {
    if events == [] then map[]
    else
      var s, e := Sightings(events[..|events| - 1]), events[|events| - 1];
      match KeyOf(e)
      case None => s
      case Some(k) => s[k := Sighting(Seen(s, k).count + 1, Seen(s, k).tools + {ToolName(e)})]
  }

  function Count(events: seq<Event>, k: Key): nat {
    if events == [] then 0
    else Count(events[..|events| - 1], k) + if KeyOf(events[|events| - 1]) == Some(k) then 1 else 0
  }

  function Tools(events: seq<Event>, k: Key): set<string> {
    set e | e in events && KeyOf(e) == Some(k) :: ToolName(e)
  }

  /** The upserts; those of the keys in `fails` fail and are only logged. */
  function Upserted(db: Servers, s: Servers, fails: set<Key>): Servers {
    map k | k in db.Keys + (s.Keys - fails) ::
      if k in s && k !in fails then Sighting(Seen(db, k).count + s[k].count, s[k].tools) else db[k]
  }

  function Process(db: Servers, events: seq<Event>, fails: set<Key>): Servers {
    Upserted(db, Sightings(events), fails)
  }

  lemma {:induction false} SightingsCount(events: seq<Event>, k: Key)
    ensures Seen(Sightings(events), k) == Sighting(Count(events, k), Tools(events, k))
    ensures k in Sightings(events) <==> Count(events, k) > 0
  {
    if events != [] {
      SightingsCount(events[..|events| - 1], k);
      assert events == events[..|events| - 1] + [events[|events| - 1]];
    }
  }

  lemma {:induction false} CountConcat(xs: seq<Event>, ys: seq<Event>, k: Key)
    ensures Count(xs + ys, k) == Count(xs, k) + Count(ys, k)
    decreases |ys|
  {
    if ys == [] {
      assert xs + ys == xs;
    } else {
      CountConcat(xs, ys[..|ys| - 1], k);
      assert (xs + ys)[..|xs + ys| - 1] == xs + ys[..|ys| - 1];
    }
  }

  /** A batch adds its sightings to a server's connections, unless that server's
      upsert fails: then all of them are lost. */
  lemma ConnectionsAfter(db: Servers, events: seq<Event>, fails: set<Key>, k: Key)
    ensures Seen(Process(db, events, fails), k).count ==
            Seen(db, k).count + if k in fails then 0 else Count(events, k)
  {
  }

  function ProcessAll(db: Servers, batches: seq<seq<Event>>): Servers {
    if batches == [] then db
    else Process(ProcessAll(db, batches[..|batches| - 1]), batches[|batches| - 1], {})
  }

  function Flatten(batches: seq<seq<Event>>): seq<Event> {
    if batches == [] then [] else Flatten(batches[..|batches| - 1]) + batches[|batches| - 1]
  }

  lemma {:induction false} CountBatches(db: Servers, batches: seq<seq<Event>>, k: Key)
    ensures Seen(ProcessAll(db, batches), k).count == Seen(db, k).count + Count(Flatten(batches), k)
  {
    if batches != [] {
      var front, last := batches[..|batches| - 1], batches[|batches| - 1];
      CountBatches(db, front, k);
      ConnectionsAfter(ProcessAll(db, front), last, {}, k);
      CountConcat(Flatten(front), last, k);
    }
  }

  /** Connection counts do not depend on how the events fell into batches. */
  lemma BatchingIrrelevant(db: Servers, batches1: seq<seq<Event>>, batches2: seq<seq<Event>>, k: Key)
    requires Flatten(batches1) == Flatten(batches2)
    ensures Seen(ProcessAll(db, batches1), k).count == Seen(ProcessAll(db, batches2), k).count
  {
    CountBatches(db, batches1, k);
    CountBatches(db, batches2, k);
  }

  lemma ToolsAfter(db: Servers, events: seq<Event>, k: Key)
    requires Count(events, k) > 0
    ensures Seen(Process(db, events, {}), k).tools == Tools(events, k)
  {
    SightingsCount(events, k);
  }

  /** Capabilities do: for a server seen in both of two batches they come out as for
      the joint batch if and only if the second batch used all tools of the first. */
  lemma CapabilitiesAgreeIff(db: Servers, xs: seq<Event>, ys: seq<Event>, k: Key)
    requires Count(xs, k) > 0 && Count(ys, k) > 0
    ensures Seen(Process(Process(db, xs, {}), ys, {}), k).tools == Seen(Process(db, xs + ys, {}), k).tools
            <==> Tools(xs, k) <= Tools(ys, k)
  {
    CountConcat(xs, ys, k);
    ToolsAfter(Process(db, xs, {}), ys, k);
    ToolsAfter(db, xs + ys, k);
    assert Tools(xs + ys, k) == Tools(xs, k) + Tools(ys, k);
  }

  /** A redelivered batch is absorbed if and only if it sights nothing: the base
      class asks every consumer to be idempotent, and this one is not. */
  lemma RedeliveryAbsorbedIff(db: Servers, events: seq<Event>)
    ensures Process(Process(db, events, {}), events, {}) == Process(db, events, {})
            <==> forall e :: e in events ==> KeyOf(e).None?
  {
    var once := Process(db, events, {});
    if exists e :: e in events && KeyOf(e).Some? {
      var e :| e in events && KeyOf(e).Some?;
      var k := KeyOf(e).value;
      CountPositive(events, e, k);
      ConnectionsAfter(once, events, {}, k);
    } else {
      NothingSighted(events);
    }
  }

  lemma {:induction false} CountPositive(events: seq<Event>, e: Event, k: Key)
    requires e in events && KeyOf(e) == Some(k)
    ensures Count(events, k) > 0
  {
    var front, last := events[..|events| - 1], events[|events| - 1];
    assert events == front + [last];
    if e in front { CountPositive(front, e, k); }
  }

  lemma {:induction false} NothingSighted(events: seq<Event>)
    requires forall e :: e in events ==> KeyOf(e).None?
    ensures Sightings(events) == map[]
  {
    if events != [] {
      assert events[|events| - 1] in events;
      NothingSighted(events[..|events| - 1]);
    }
  }

  lemma UpsertNext(db: Servers, s: Servers, waiting: set<Key>, k: Key)
    requires k in s && k in waiting
    ensures var now := Upserted(db, s, waiting);
            Upserted(db, s, waiting - {k}) == now[k := Sighting(Seen(now, k).count + s[k].count, s[k].tools)]
  {
  }

  class McpRegistrar {
    var servers: Servers

    method CollectSightings(events: seq<Event>) returns (sightings: Servers)
      ensures sightings == Sightings(events)
    {
      sightings := map[];
      for i := 0 to |events|
        invariant sightings == Sightings(events[..i])
      {
        var e := events[i];
        assert events[..i + 1][..i] == events[..i];
        var key := KeyOf(e);
        if key.None? { continue; }
        var k := key.value;
        if k !in sightings { sightings := sightings[k := Sighting(0, {})]; }
        var seen := sightings[k];
        sightings := sightings[k := Sighting(seen.count + 1, seen.tools + {ToolName(e)})];
      }
      assert events[..|events|] == events;
    }

    /** `fails`: the keys whose statement raises. */
    method ProcessBatch(events: seq<Event>, fails: set<Key>)
      modifies this
      ensures servers == Process(old(servers), events, fails)
    {
      var sightings := CollectSightings(events);
      var todo := sightings.Keys;
      while todo != {}
        invariant todo <= sightings.Keys
        invariant servers == Upserted(old(servers), sightings, fails + todo)
        decreases |todo|
      {
        var k :| k in todo;
        if k !in fails {
          UpsertNext(old(servers), sightings, fails + todo, k);
          servers := servers[k := Sighting(Seen(servers, k).count + sightings[k].count, sightings[k].tools)];
          assert fails + (todo - {k}) == fails + todo - {k};
        } else {
          assert fails + (todo - {k}) == fails + todo;
        }
        todo := todo - {k};
      }
      assert fails + todo == fails;
    }
  }
}
