/** From the scheduler's rows to the worker's starts: what a heartbeat's answer makes the worker do. */
module Delivery {
  import opened Entities
  import opened ClusterState
  import opened RowInvariants
  import opened Heartbeat
  import W = Worker

  /** The answer as the worker gets it. */
  function Received(answer: seq<Assignment>): (r: seq<W.Assignment>)
    ensures |r| == |answer| && forall i :: 0 <= i < |r| ==> r[i] == W.Assignment(answer[i].task, answer[i].epoch)
  {
    seq(|answer|, i requires 0 <= i < |answer| => W.Assignment(answer[i].task, answer[i].epoch))
  }

  /** A worker that handles the answer to its heartbeat starts exactly the tasks that are scheduled on its node
      under the epoch it has itself and that it neither runs nor tracks, each once: not those assigned under an
      epoch from before it registered again, and none twice however often the answer is repeated. */
  lemma AnswerStarts(s: Cluster, n: NodeId, w: W.State, t: TaskId)
    requires Inv(s) && w.considering.None?
    ensures var answer := Received(ScheduledOn(s.tasks, n, |s.tasks|));
            var w' := W.HandleAll(w, answer);
            && (t in W.ToStart(w, answer) <==>
                  && t < |s.tasks| && s.tasks[t].status == Scheduled && s.tasks[t].assignedNode == Some(n)
                  && s.tasks[t].assignedEpoch == Some(w.epoch) && t !in w.running && t !in w.specs)
            && W.Starts(w, w', W.ToStart(w, answer))
            && W.HandleAll(w', answer) == w'
  {
    var list := ScheduledOn(s.tasks, n, |s.tasks|);
    var answer := Received(list);
    ScheduledAnswers(s, n);
    W.EachMatchingIsStarted(w, answer);
    if t < |s.tasks| && s.tasks[t].status == Scheduled && s.tasks[t].assignedNode == Some(n)
       && s.tasks[t].assignedEpoch == Some(w.epoch) {
      var x :| x in list && x.task == t;
      var i :| 0 <= i < |list| && list[i] == x;
      assert answer[i] in answer;
    }
    NothingTwice(w, answer);
  }

  /** Handling the same answer again starts nothing. */
  lemma NothingTwice(w: W.State, answer: seq<W.Assignment>)
    requires w.considering.None?
    ensures W.HandleAll(W.HandleAll(w, answer), answer) == W.HandleAll(w, answer)
  {
    var w' := W.HandleAll(w, answer);
    W.EachMatchingIsStarted(w, answer);
    forall a | a in answer ensures a.assignedEpoch == w'.epoch && a.task !in w'.running ==> a.task in w'.specs {
      if a.assignedEpoch == w.epoch && a.task !in w.running && a.task !in w.specs {
        assert a.task in W.ToStart(w, answer);
      }
    }
    AllSkipped(w', answer);
  }

  lemma {:induction false} AllSkipped(w: W.State, answer: seq<W.Assignment>)
    requires w.considering.None?
    requires forall a <- answer :: a.assignedEpoch == w.epoch && a.task !in w.running ==> a.task in w.specs
    ensures W.HandleAll(w, answer) == w
  {
    if answer != [] {
      var last := |answer| - 1;
      assert answer == answer[..last] + [answer[last]];
      AllSkipped(w, answer[..last]);
    }
  }
}
