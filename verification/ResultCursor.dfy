/**
  One server-side result: a one-deep replay window over a backend reader that
  can be read only once. `ResultEntry` is the code; `Reply` is what it means:
  read item `k` of a fixed list, through a window.
*/
module ResultCursor {
  import opened Prelude

  /** What one call of the backend reader produces. */
  datatype Pull = Item(batch: Batch) | Broken(error: AdbcError) | Exhausted

  /** The backend reader. `script` is whatever the foreign driver will answer, pull by pull. */
  class BackendReader {
    const script: nat -> Pull
    var position: nat

    constructor (script: nat -> Pull)
      ensures this.script == script && position == 0
    {
      this.script := script;
      position := 0;
    }

    method Next() returns (pull: Pull)
      modifies this
      ensures pull == script(old(position))
      ensures position == old(position) + 1
    {
      pull := script(position);
      position := position + 1;
    }
  }

  datatype Phase = Streaming | Failed | Ended

  /** `next` batches have been pulled; unless streaming, one more pull met an error or the end. */
  datatype Window = Window(next: nat, phase: Phase)

  const OPENED: Window := Window(0, Streaming)

  function Pulls(w: Window): nat {
    if w.phase.Streaming? then w.next else w.next + 1
  }

  ghost predicate AllItems(script: nat -> Pull, n: nat) {
    forall j: nat | j < n :: script(j).Item?
  }

  ghost predicate Consistent(script: nat -> Pull, w: Window) {
    && AllItems(script, w.next)
    && (w.phase.Failed? ==> script(w.next).Broken?)
    && (w.phase.Ended? ==> script(w.next).Exhausted?)
  }

  /** The sequence numbers that a window answers. */
  predicate InWindow(w: Window, k: int) {
    || k == w.next
    || (k == w.next - 1 && k >= 0 && !w.phase.Ended?)
  }

  datatype Answer = Delivered(batch: Batch) | Finished | Faulted(error: AdbcError) | OutOfWindow(expected: int)

  function ItemAt(script: nat -> Pull, k: nat): Answer {
    match script(k)
    case Item(batch) => Delivered(batch)
    case Broken(error) => Faulted(error)
    case Exhausted => Finished
  }

  /** Reading item `k` through window `w`. */
  function Reply(script: nat -> Pull, w: Window, k: int): (Window, Answer) {
    if !InWindow(w, k) || k < 0 then
      (w, OutOfWindow(w.next))
    else if k < w.next || !w.phase.Streaming? then
      (w, ItemAt(script, k))
    else
      match script(k)
      case Item(_) => (Window(k + 1, Streaming), ItemAt(script, k))
      case Broken(_) => (Window(k, Failed), ItemAt(script, k))
      case Exhausted => (Window(k, Ended), ItemAt(script, k))
  }

  class ResultEntry {
    const reader: BackendReader
    var nextSequence: int
    var last: Option<(int, Batch)>
    var terminalError: Option<(int, AdbcError)>
    var finished: bool

    ghost function View(): (w: Window)
      requires nextSequence >= 0
      reads this
    {
      Window(nextSequence, if !finished then Streaming else if terminalError.Some? then Failed else Ended)
    }

    ghost predicate Valid()
      reads this, reader
    {
      && nextSequence >= 0
      && Consistent(reader.script, View())
      && last == (if nextSequence == 0 || View().phase.Ended? then None
                  else Some((nextSequence - 1, reader.script(nextSequence - 1).batch)))
      && terminalError == (if View().phase.Failed? then Some((nextSequence, reader.script(nextSequence).error))
                           else None)
      && reader.position == Pulls(View())
    }

    constructor (reader: BackendReader)
      requires reader.position == 0
      ensures this.reader == reader
      ensures Valid() && View() == OPENED
    {
      this.reader := reader;
      nextSequence := 0;
      last := None;
      terminalError := None;
      finished := false;
    }

    /** `ResultEntry::next`, with the answers of the downstream reader substituted. */
    method Next(sequence: int) returns (answer: Answer)
      requires Valid()
      modifies this, reader
      ensures Valid()
      ensures (View(), answer) == Reply(reader.script, old(View()), sequence)
    {
      if last.Some? && last.value.0 == sequence {
        return Delivered(last.value.1);
      }
      if terminalError.Some? && terminalError.value.0 == sequence {
        return Faulted(terminalError.value.1);
      }
      if sequence != nextSequence {
        return OutOfWindow(nextSequence);
      }
      if finished {
        return Finished;
      }
      var pull := reader.Next();
      match pull {
        case Item(batch) =>
          last := Some((sequence, batch));
          nextSequence := nextSequence + 1;
          answer := Delivered(batch);
        case Broken(error) =>
          terminalError := Some((sequence, error));
          finished := true;
          answer := Faulted(error);
        case Exhausted =>
          finished := true;
          last := None;
          answer := Finished;
      }
    }
  }

  /** The window and the answers after serving a whole list of requests. */
  function Serve(script: nat -> Pull, w: Window, requests: seq<int>): (r: (Window, seq<Answer>))
    ensures |r.1| == |requests|
  {
    if requests == [] then (w, [])
    else
      var (w', answers) := Serve(script, w, requests[..|requests| - 1]);
      var (w'', answer) := Reply(script, w', requests[|requests| - 1]);
      (w'', answers + [answer])
  }

  /** An answer that is not a refusal is the `k`-th item of the fixed list, and items `0..k` were batches. */
  ghost predicate Indexed(script: nat -> Pull, k: int, answer: Answer) {
    answer.OutOfWindow? || (k >= 0 && AllItems(script, k) && answer == ItemAt(script, k))
  }

  /** One request: exactly the window is answered, and only the next item of an open stream is pulled. */
  lemma ReplyExact(script: nat -> Pull, w: Window, k: int)
    requires Consistent(script, w)
    ensures var (w', answer) := Reply(script, w, k);
            && Consistent(script, w')
            && Indexed(script, k, answer)
            && (answer.OutOfWindow? <==> !InWindow(w, k))
            && (answer.OutOfWindow? ==> answer.expected == w.next)
            && (w' != w <==> k == w.next && w.phase.Streaming?)
            && Pulls(w') == Pulls(w) + (if k == w.next && w.phase.Streaming? then 1 else 0)
            && w.next <= w'.next
  {
    if w.phase.Streaming? && k == w.next {
      assert script(k).Item? || script(k).Broken? || script(k).Exhausted?;
    }
  }

  /** Every run of requests refines reading an indexed list: property of the whole history. */
  lemma {:induction false} RunRefinesList(script: nat -> Pull, w: Window, requests: seq<int>)
    requires Consistent(script, w)
    ensures var (w', answers) := Serve(script, w, requests);
            && Consistent(script, w')
            && w.next <= w'.next
            && Pulls(w) <= Pulls(w') <= Pulls(w) + |requests|
            && forall i | 0 <= i < |requests| :: Indexed(script, requests[i], answers[i])
  {
    if requests != [] {
      var n := |requests| - 1;
      RunRefinesList(script, w, requests[..n]);
      ReplyExact(script, Serve(script, w, requests[..n]).0, requests[n]);
      forall i | 0 <= i < |requests|
        ensures Indexed(script, requests[i], Serve(script, w, requests).1[i])
      {
        if i < n { assert requests[i] == requests[..n][i]; }
      }
    }
  }

  /** Two answers for one sequence number never differ, however far apart in the run. */
  lemma RepeatsAgree(script: nat -> Pull, requests: seq<int>, i: nat, j: nat)
    requires i < |requests| && j < |requests| && requests[i] == requests[j]
    ensures var answers := Serve(script, OPENED, requests).1;
            answers[i] == answers[j] || answers[i].OutOfWindow? || answers[j].OutOfWindow?
  {
    RunRefinesList(script, OPENED, requests);
    var answers := Serve(script, OPENED, requests).1;
    assert Indexed(script, requests[i], answers[i]) && Indexed(script, requests[j], answers[j]);
  }

  /** The end and the terminal error are stable: no later request moves the window or pulls the reader. */
  lemma {:induction false} ClosedWindowIsStable(script: nat -> Pull, w: Window, requests: seq<int>)
    requires Consistent(script, w) && !w.phase.Streaming?
    ensures var (w', answers) := Serve(script, w, requests);
            && w' == w
            && forall i | 0 <= i < |requests| && requests[i] == w.next :: answers[i] == ItemAt(script, w.next)
  {
    if requests != [] {
      var n := |requests| - 1;
      ClosedWindowIsStable(script, w, requests[..n]);
      forall i | 0 <= i < |requests| && requests[i] == w.next
        ensures Serve(script, w, requests).1[i] == ItemAt(script, w.next)
      {
        if i < n { assert requests[..n][i] == w.next; }
      }
    }
  }

  /** A client that never asks ahead of `c` keeps item `c` readable, whatever is repeated or delayed. */
  ghost predicate Ready(w: Window, c: nat) {
    w.next == c || (w.next == c + 1 && !w.phase.Ended?)
  }

  lemma {:induction false} NoSkipAhead(script: nat -> Pull, w: Window, c: nat, requests: seq<int>)
    requires Consistent(script, w) && Ready(w, c)
    requires forall i | 0 <= i < |requests| :: requests[i] <= c
    ensures Ready(Serve(script, w, requests).0, c)
  {
    if requests != [] {
      var n := |requests| - 1;
      forall i | 0 <= i < n ensures requests[..n][i] <= c { assert requests[..n][i] == requests[i]; }
      NoSkipAhead(script, w, c, requests[..n]);
      RunRefinesList(script, w, requests[..n]);
    }
  }

  /** After the end the last batch is gone: the replay window is one-deep only while the stream lives. */
  lemma LastBatchNotReplayableAfterEnd(script: nat -> Pull, w: Window)
    requires Consistent(script, w) && w.next > 0
    ensures Reply(script, w, w.next - 1).1 ==
            if w.phase.Ended? then OutOfWindow(w.next) else Delivered(script(w.next - 1).batch)
  {
    assert script(w.next - 1).Item?;
  }
}
