/** What is seen of a child process, in order, and what is true before a point of such a trace. */
module ChildTrace {

  datatype Report = HookDone(ok: bool) | ItmDone(code: int)

  /** A signal is seen when it is sent, whether or not the kill call succeeds. */
  datatype Observation =
    | SigTerm
    | SigKill
    | Progress(percent: nat)
    | Exit(error: bool, code: int)
    | Drained
    | DrainExpired
    | Completed(report: Report)

  ghost predicate SeenBefore(t: seq<Observation>, j: nat, o: Observation)
    requires j <= |t|
  {
    exists i :: 0 <= i < j && t[i] == o
  }

  ghost predicate ExitedBefore(t: seq<Observation>, j: nat)
    requires j <= |t|
  {
    exists i :: 0 <= i < j && t[i].Exit?
  }

  ghost predicate DrainedBefore(t: seq<Observation>, j: nat)
    requires j <= |t|
  {
    SeenBefore(t, j, Drained) || SeenBefore(t, j, DrainExpired)
  }

  ghost predicate CompletedBefore(t: seq<Observation>, j: nat)
    requires j <= |t|
  {
    exists i :: 0 <= i < j && t[i].Completed?
  }

  lemma SeenNext(t: seq<Observation>, o: Observation, p: Observation)
    ensures SeenBefore(t + [o], |t + [o]|, p) == (SeenBefore(t, |t|, p) || p == o)
  {
    var u := t + [o];
    assert forall i :: 0 <= i < |t| ==> u[i] == t[i];
    assert u[|t|] == o;
  }

  /** What one more observation changes. */
  lemma Grows(t: seq<Observation>, o: Observation)
    ensures forall p :: SeenBefore(t + [o], |t + [o]|, p) == (SeenBefore(t, |t|, p) || p == o)
    ensures ExitedBefore(t + [o], |t + [o]|) == (ExitedBefore(t, |t|) || o.Exit?)
    ensures CompletedBefore(t + [o], |t + [o]|) == (CompletedBefore(t, |t|) || o.Completed?)
  {
    var u := t + [o];
    assert forall i :: 0 <= i < |t| ==> u[i] == t[i];
    assert u[|t|] == o;
    forall p
      ensures SeenBefore(u, |u|, p) == (SeenBefore(t, |t|, p) || p == o)
    {
      SeenNext(t, o, p);
    }
  }

  /** What was seen before a point does not depend on what comes after it. */
  lemma Before(t: seq<Observation>, o: Observation, j: nat)
    requires j <= |t|
    ensures forall p :: SeenBefore(t + [o], j, p) == SeenBefore(t, j, p)
    ensures ExitedBefore(t + [o], j) == ExitedBefore(t, j)
    ensures DrainedBefore(t + [o], j) == DrainedBefore(t, j)
    ensures CompletedBefore(t + [o], j) == CompletedBefore(t, j)
  {
    assert forall i :: 0 <= i < |t| ==> (t + [o])[i] == t[i];
  }

  /** One more observation, and perhaps a completion with it. */
  ghost predicate Grew(t: seq<Observation>, o: Observation, u: seq<Observation>) {
    u == t + [o] || exists r :: u == t + [o] + [Completed(r)]
  }

  lemma GrewBy(t: seq<Observation>, o: Observation, u: seq<Observation>)
    requires !o.Completed? && Grew(t, o, u)
    ensures forall p: Observation :: !p.Completed? ==> SeenBefore(u, |u|, p) == (SeenBefore(t, |t|, p) || p == o)
    ensures ExitedBefore(u, |u|) == (ExitedBefore(t, |t|) || o.Exit?)
  {
    hide SeenBefore, ExitedBefore;
    Grows(t, o);
    if u != t + [o] {
      var r :| u == t + [o] + [Completed(r)];
      Grows(t + [o], Completed(r));
    }
  }
}
