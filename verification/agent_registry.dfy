/**
 The agent registry of `agent/src/lib.rs`: a table from id to agent and a
 dispatch that hands a UAL statement to the agent named by its destination.

 The `MapleAgent` trait is modelled by a generic agent type `A` together with
 a function `run` that gives each agent's result for a statement; the
 registry never looks inside an agent.
 */
module AgentRegistry {
  import opened Results
  import opened UalParser

  /** The result type of `MapleAgent::execute`. */
  type Outcome = Result<(), string>

  datatype Registry<A> = Registry(agents: map<string, A>)

  /** The error `execute` reports for a destination nobody registered. */
  function NotFound(destination: string): string {
    "Agent '" + destination + "' not found"
  }

  /** `AgentRegistry::new`: an empty table. */
  function New<A>(): (r: Registry<A>)
    ensures forall id :: id !in r.agents
  {
    Registry(map[])
  }

  /**
   `AgentRegistry::register`: the id now names the given agent, replacing
   any earlier one, and every other entry is left as it was.
   */
  function Register<A>(reg: Registry<A>, id: string, agent: A): (r: Registry<A>)
    ensures id in r.agents && r.agents[id] == agent
    ensures r.agents.Keys == reg.agents.Keys + {id}
    ensures forall other :: other in reg.agents && other != id ==> r.agents[other] == reg.agents[other]
  {
    Registry(reg.agents[id := agent])
  }

  /**
   `AgentRegistry::execute`: the agent registered under the statement's
   destination runs the statement; without one, the not-found error.
   */
  function Execute<A>(reg: Registry<A>, stmt: Statement, run: (A, Statement) -> Outcome): (r: Outcome)
    ensures stmt.destination !in reg.agents ==> r == Err(NotFound(stmt.destination))
    ensures stmt.destination in reg.agents ==>
      exists id :: id in reg.agents && id == stmt.destination && r == run(reg.agents[id], stmt)
  {
    if stmt.destination in reg.agents then run(reg.agents[stmt.destination], stmt)
    else Err(NotFound(stmt.destination))
  }

  /** A fresh registry knows no agent, so every statement is not found. */
  lemma ExecuteOnNew<A>(stmt: Statement, run: (A, Statement) -> Outcome)
    ensures Execute(New<A>(), stmt, run) == Err(NotFound(stmt.destination))
  {
  }

  /** After `register(id, a)`, a statement for `id` gets exactly `a`'s result. */
  lemma ExecuteRegistered<A>(reg: Registry<A>, id: string, agent: A, stmt: Statement,
                             run: (A, Statement) -> Outcome)
    requires stmt.destination == id
    ensures Execute(Register(reg, id, agent), stmt, run) == run(agent, stmt)
  {
  }

  /** Registering under one id does not change dispatch to any other id. */
  lemma ExecuteOtherUnchanged<A>(reg: Registry<A>, id: string, agent: A, stmt: Statement,
                                 run: (A, Statement) -> Outcome)
    requires stmt.destination != id
    ensures Execute(Register(reg, id, agent), stmt, run) == Execute(reg, stmt, run)
  {
  }

  /** A second registration under the same id replaces the first entirely. */
  lemma RegisterOverwrites<A>(reg: Registry<A>, id: string, a: A, b: A)
    ensures Register(Register(reg, id, a), id, b) == Register(reg, id, b)
  {
    assert Register(Register(reg, id, a), id, b).agents == Register(reg, id, b).agents;
  }

  /**
   On an unregistered destination no agent runs: the result is the same
   not-found error whatever the agents would have done.
   */
  lemma ExecuteUnregisteredRunsNothing<A>(reg: Registry<A>, stmt: Statement,
                                          run1: (A, Statement) -> Outcome,
                                          run2: (A, Statement) -> Outcome)
    requires stmt.destination !in reg.agents
    ensures Execute(reg, stmt, run1) == Execute(reg, stmt, run2) == Err(NotFound(stmt.destination))
  {
  }

  /**
   The agent chosen depends on the destination alone: two statements for the
   same destination run on the same agent, whatever their other fields.
   */
  lemma ExecuteChoosesByDestination<A>(reg: Registry<A>, s1: Statement, s2: Statement,
                                       run: (A, Statement) -> Outcome)
    requires s1.destination == s2.destination
    ensures s1.destination in reg.agents ==>
      exists a :: Execute(reg, s1, run) == run(a, s1) && Execute(reg, s2, run) == run(a, s2)
    ensures s1.destination !in reg.agents ==> Execute(reg, s1, run) == Execute(reg, s2, run)
  {
    if s1.destination in reg.agents {
      var a := reg.agents[s1.destination];
      assert Execute(reg, s1, run) == run(a, s1) && Execute(reg, s2, run) == run(a, s2);
    }
  }

  /** `SimpleAgent`: prints the statement and always succeeds. */
  datatype SimpleAgent = SimpleAgent

  /** `SimpleAgent::execute`: succeeds on every statement. */
  function RunSimple(agent: SimpleAgent, stmt: Statement): (r: Outcome)
    ensures r.Ok?
  {
    Ok(())
  }

  /**
   With only `SimpleAgent`s registered, a statement succeeds exactly when its
   destination was registered.
   */
  lemma SimpleDispatchOkIffRegistered(reg: Registry<SimpleAgent>, stmt: Statement)
    ensures Execute(reg, stmt, RunSimple).Ok? <==> stmt.destination in reg.agents
  {
  }
}
