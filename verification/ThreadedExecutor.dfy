// include/graylog_logger/ThreadedExecutor.hpp: the worker thread and its queue.
module Executor {

  /** A work item, or the one the destructor sends to end the worker loop. */
  datatype Job<W> = Task(work: W) | Stop

  /** The work in front of the first stop item. */
  function TasksBeforeStop<W>(jobs: seq<Job<W>>): seq<W> {
    if jobs == [] || jobs[0].Stop? then [] else [jobs[0].work] + TasksBeforeStop(jobs[1..])
  }

  function AfterStop<W>(jobs: seq<Job<W>>): seq<Job<W>> {
    if jobs == [] then [] else if jobs[0].Stop? then jobs[1..] else AfterStop(jobs[1..])
  }

  function Flatten<W>(batches: seq<seq<Job<W>>>): seq<Job<W>> {
    if batches == [] then [] else batches[0] + Flatten(batches[1..])
  }

  function Tasks<W>(works: seq<W>): seq<Job<W>> {
    if works == [] then [] else [Task(works[0])] + Tasks(works[1..])
  }

  ghost predicate HasStop<W>(jobs: seq<Job<W>>) {
    exists i :: 0 <= i < |jobs| && jobs[i].Stop?
  }

  lemma {:induction false} StopBehindTasks<W>(works: seq<W>, behind: seq<Job<W>>)
    ensures TasksBeforeStop(Tasks(works) + [Stop] + behind) == works
    ensures AfterStop(Tasks(works) + [Stop] + behind) == behind
    ensures HasStop(Tasks(works) + [Stop] + behind)
  {
    var all := Tasks(works) + [Stop] + behind;
    assert all[|Tasks(works)|].Stop?;
    if works == [] {
      assert all[1..] == behind;
    } else {
      StopBehindTasks(works[1..], behind);
      assert all[1..] == Tasks(works[1..]) + [Stop] + behind;
    }
  }

  class ThreadedExecutor<W> {
    var messageQueue: seq<Job<W>>
    var runThread: bool
    /** The work done so far. */
    ghost var done: seq<W>

    constructor ()
      ensures messageQueue == [] && runThread && done == []
    {
      messageQueue, runThread, done := [], true, [];
    }

    method SendWork(job: Job<W>)
      modifies this`messageQueue
      ensures messageQueue == old(messageQueue) + [job]
    {
      messageQueue := messageQueue + [job];
    }

    /** The worker loop, lines 34-44. Between its rounds other threads send the
        next batch of `arrivals`; `taken` of them have arrived when it ends. It
        does the work in front of the first stop item, in order and once each,
        and none behind it. */
    method WorkerLoop(arrivals: seq<seq<Job<W>>>) returns (taken: nat)
      requires runThread && HasStop(messageQueue + Flatten(arrivals))
      modifies this
      ensures !runThread && taken <= |arrivals|
      ensures done == old(done) + TasksBeforeStop(old(messageQueue) + Flatten(arrivals))
      ensures messageQueue + Flatten(arrivals[taken..]) == AfterStop(old(messageQueue) + Flatten(arrivals))
    {
      taken := 0;
      ghost var stream := messageQueue + Flatten(arrivals);
      while runThread
        invariant taken <= |arrivals|
        invariant runThread ==>
          var ahead := messageQueue + Flatten(arrivals[taken..]);
          && HasStop(ahead)
          && done + TasksBeforeStop(ahead) == old(done) + TasksBeforeStop(stream)
          && AfterStop(ahead) == AfterStop(stream)
        invariant !runThread ==>
          && done == old(done) + TasksBeforeStop(stream)
          && messageQueue + Flatten(arrivals[taken..]) == AfterStop(stream)
        decreases runThread, |arrivals| - taken, |messageQueue|
      {
        hide TasksBeforeStop, AfterStop, Flatten;
        if messageQueue != [] {
          ghost var ahead := messageQueue + Flatten(arrivals[taken..]);
          FirstAhead(ahead, done);
          var current := messageQueue[0];
          messageQueue := messageQueue[1..];
          assert ahead[1..] == messageQueue + Flatten(arrivals[taken..]);
          match current {
            case Stop => runThread := false;
            case Task(work) => done := done + [work];
          }
        }
        if taken < |arrivals| {
          NextBatch(messageQueue, arrivals, taken);
          messageQueue := messageQueue + arrivals[taken];
          taken := taken + 1;
        }
      }
    }

    /** The destructor, lines 25-28: all the work sent before is done, in order,
        before the thread is joined, whatever is sent behind the stop item. */
    method Destroy(ghost works: seq<W>, arrivals: seq<seq<Job<W>>>) returns (taken: nat)
      requires runThread && messageQueue == Tasks(works)
      modifies this
      ensures !runThread && taken <= |arrivals| && done == old(done) + works
      ensures messageQueue + Flatten(arrivals[taken..]) == Flatten(arrivals)
    {
      StopBehindTasks(works, Flatten(arrivals));
      SendWork(Stop);
      taken := WorkerLoop(arrivals);
    }
  }

  /** What the first job makes of what is ahead. */
  lemma FirstAhead<W>(jobs: seq<Job<W>>, done: seq<W>)
    requires HasStop(jobs)
    ensures jobs != []
    ensures match jobs[0]
      case Stop => done + TasksBeforeStop(jobs) == done && AfterStop(jobs) == jobs[1..]
      case Task(work) =>
        && HasStop(jobs[1..]) && AfterStop(jobs) == AfterStop(jobs[1..])
        && done + TasksBeforeStop(jobs) == done + [work] + TasksBeforeStop(jobs[1..])
  {
    if jobs[0].Task? {
      var i :| 0 <= i < |jobs| && jobs[i].Stop?;
      assert jobs[1..][i - 1].Stop?;
      assert done + ([jobs[0].work] + TasksBeforeStop(jobs[1..])) == done + [jobs[0].work] + TasksBeforeStop(jobs[1..]);
    } else {
      assert done + [] == done;
    }
  }

  /** A batch that arrives moves into the queue. */
  lemma NextBatch<W>(queue: seq<Job<W>>, arrivals: seq<seq<Job<W>>>, taken: nat)
    requires taken < |arrivals|
    ensures queue + Flatten(arrivals[taken..]) == queue + arrivals[taken] + Flatten(arrivals[taken + 1..])
  {
    assert arrivals[taken..][1..] == arrivals[taken + 1..];
    var behind := Flatten(arrivals[taken + 1..]);
    assert queue + (arrivals[taken] + behind) == queue + arrivals[taken] + behind;
  }
}
