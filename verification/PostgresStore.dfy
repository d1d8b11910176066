/** `process_batch` over the two tables it updates row by row. */
module PostgresStore {
  import opened AgentRows
  import opened Options
  import opened PgWriter

  class Store {
    var events: Events
    var agents: Agents

    function Contents(): Db
      reads this
    {
      Db(events, agents)
    }

    method ProcessBatch(batch: seq<Record>, clock: Clock)
      modifies this
      ensures Contents() == Process(old(Contents()), batch, clock)
    {
      var rows := [];
      var discovered := [];
      for n := 0 to |batch|
        invariant rows == RowsOf(batch, clock, n)
        invariant discovered == UpsertsOf(batch, clock, n)
      {
        var e := batch[n];
        if e.id.Some? {
          rows := rows + [RowOf(e, clock(Inserting, n))];
          if Discovers(e) {
            discovered := discovered + [UpsertOf(e, clock(Upserting, n))];
          }
        }
      }
      if rows == [] { return; }
      InsertRows(rows);
      UpsertAgents(discovered);
      var agentTs := [];
      for n := 0 to |batch|
        invariant agentTs == TouchesOf(batch, clock, n)
      {
        var e := batch[n];
        if e.agent.Some? {
          agentTs := Noted(agentTs, e.agent.value, StampOf(e.stamp, clock(Touching, n)));
        }
      }
      TouchAgents(agentTs);
    }

    method InsertRows(rows: seq<Row>)
      modifies this`events
      ensures events == InsertAll(old(events), rows)
    {
      for i := 0 to |rows|
        invariant events == InsertAll(old(events), rows[..i])
      {
        assert rows[..i + 1][..i] == rows[..i];
        if KeyOf(rows[i]) !in events {
          events := events[KeyOf(rows[i]) := rows[i]];
        }
      }
      assert rows[..|rows|] == rows;
    }

    method UpsertAgents(us: seq<Upsert>)
      modifies this`agents
      ensures agents == UpsertAll(old(agents), us)
    {
      for i := 0 to |us|
        invariant agents == UpsertAll(old(agents), us[..i])
      {
        assert us[..i + 1][..i] == us[..i];
        agents := agents[us[i].paid := Upserted(Lookup(agents, us[i].paid), us[i])];
      }
      assert us[..|us|] == us;
    }

    method TouchAgents(ms: seq<Touch>)
      modifies this`agents
      ensures agents == TouchAll(old(agents), ms)
    {
      for i := 0 to |ms|
        invariant agents == TouchAll(old(agents), ms[..i])
      {
        assert ms[..i + 1][..i] == ms[..i];
        if ms[i].paid in agents {
          agents := agents[ms[i].paid := Touched(agents[ms[i].paid], ms[i].ts)];
        }
      }
      assert ms[..|ms|] == ms;
    }
  }
}
