/**
 Routing by request ids: a workload's request gets the workload name in front at
 the agent and the agent name at the server, and the response finds its way back.
 */
module RequestId {
  import opened Options
  import opened Sequences

  const SEPARATOR: char := '@'

  function Prepend(id: string, agent: string): string {
    if id == "" then "" else if agent == "" then id else agent + [SEPARATOR] + id
  }

  /** The part before the first separator and the part behind it; without one, all is the id. */
  function Detach(id: string): (string, string) {
    var k := IndexOf(id, SEPARATOR);
    if k == |id| then ("", id) else (id[..k], id[k + 1..])
  }

  /** The prefix of a workload's control interface. */
  function WorkloadPrefix(workload: string): string {
    workload + [SEPARATOR]
  }

  function PrefixId(prefix: string, id: string): string {
    prefix + id
  }

  lemma DetachAt(a: string, b: string)
    requires SEPARATOR !in a
    ensures Detach(a + [SEPARATOR] + b) == (a, b)
  {
    var s := a + [SEPARATOR] + b;
    var k := IndexOf(s, SEPARATOR);
    assert s[|a|] == SEPARATOR;
    assert forall i :: 0 <= i < |a| ==> s[i] == a[i] && a[i] in a;
    assert s[..|a|] == a && s[|a| + 1..] == b;
  }

  lemma DetachInside(a: string, b: string)
    requires SEPARATOR in a
    ensures |Detach(a + [SEPARATOR] + b).0| < |a|
  {
    var s := a + [SEPARATOR] + b;
    var k := IndexOf(s, SEPARATOR);
    var i :| 0 <= i < |a| && a[i] == SEPARATOR;
    assert s[i] == SEPARATOR;
  }

  lemma DetachWithout(s: string)
    ensures Detach(s) == ("", s) <==> SEPARATOR !in s
  {
    var k := IndexOf(s, SEPARATOR);
    assert s[..k] == s || k < |s|;
    assert k < |s| ==> s[k] in s;
  }

  /** One hop: exactly when prefixing can be undone. */
  lemma DetachPrependIff(id: string, agent: string)
    ensures Detach(Prepend(id, agent)) == (agent, id) <==>
            if agent == "" then SEPARATOR !in id else id != "" && SEPARATOR !in agent
  {
    if agent == "" || id == "" {
      DetachWithout(id);
      DetachWithout("");
    } else if SEPARATOR in agent {
      DetachInside(agent, id);
    } else {
      DetachAt(agent, id);
    }
  }

  // ---------- Both hops ----------

  /** The id under which the server knows a request. */
  function AtServer(agent: string, workload: string, id: string): string {
    Prepend(PrefixId(WorkloadPrefix(workload), id), agent)
  }

  /** What the server's middleware and then the agent take off a response. */
  function Back(id: string): (string, string, string) {
    var (agent, rest) := Detach(id);
    var (workload, own) := Detach(rest);
    (agent, workload, own)
  }

  /** Which requests come back to where they came from. */
  predicate Routable(agent: string, workload: string, id: string) {
    if agent == "" then workload == "" && SEPARATOR !in id
    else SEPARATOR !in agent && SEPARATOR !in workload
  }

  /** Two hops: any id, even an empty one or one with separators, comes back exactly when the names are routable. */
  lemma RoundTripIff(agent: string, workload: string, id: string)
    ensures Back(AtServer(agent, workload, id)) == (agent, workload, id) <==> Routable(agent, workload, id)
  {
    var inner := workload + [SEPARATOR] + id;
    assert PrefixId(WorkloadPrefix(workload), id) == inner;
    if agent == "" {
      if SEPARATOR in workload {
        DetachInside(workload, id);
        BackFromInside(workload, id);
      } else {
        DetachAt(workload, id);
        DetachWithout(id);
      }
    } else {
      if SEPARATOR in agent {
        DetachInside(agent, inner);
      } else {
        DetachAt(agent, inner);
        if SEPARATOR in workload {
          DetachInside(workload, id);
        } else {
          DetachAt(workload, id);
        }
      }
    }
  }

  /** Without an agent name the workload part never survives a separator in it. */
  lemma BackFromInside(workload: string, id: string)
    requires SEPARATOR in workload
    ensures Back(workload + [SEPARATOR] + id).1 != workload
  {
    var s := workload + [SEPARATOR] + id;
    var (agent, rest) := Detach(s);
    var (back, own) := Detach(rest);
    var k := IndexOf(rest, SEPARATOR);
    assert SEPARATOR !in rest[..k];
    assert back == "" || back == rest[..k];
  }

  /** Two routable requests share an id at the server only if they are the same request. */
  lemma NeverConfused(a1: string, w1: string, id1: string, a2: string, w2: string, id2: string)
    requires Routable(a1, w1, id1) && Routable(a2, w2, id2) && AtServer(a1, w1, id1) == AtServer(a2, w2, id2)
    ensures a1 == a2 && w1 == w2 && id1 == id2
  {
    RoundTripIff(a1, w1, id1);
    RoundTripIff(a2, w2, id2);
  }

  datatype Delivery = Delivery(agent: string, workload: string, id: string)

  /** A response on its way: the connected agent and its workload it is handed to, if both exist. */
  function Deliver(agents: map<string, set<string>>, id: string): Option<Delivery> {
    var (agent, rest) := Detach(id);
    var (workload, own) := Detach(rest);
    if agent in agents && workload in agents[agent] then Some(Delivery(agent, workload, own)) else None
  }

  /** A response reaches the requester with the requester's own id, and nobody else. */
  lemma ResponseReachesRequester(agents: map<string, set<string>>, agent: string, workload: string, id: string)
    requires Routable(agent, workload, id)
    ensures Deliver(agents, AtServer(agent, workload, id)) ==
            if agent in agents && workload in agents[agent] then Some(Delivery(agent, workload, id)) else None
  {
    RoundTripIff(agent, workload, id);
  }
}
