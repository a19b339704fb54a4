/** The live view of a job's log: a polling loop that reads what was appended since the
    last poll and sends it line by line. It is compared with splitting the log once. */
module LogTail {
  import opened Base
  import opened JobManager
  import opened Lines

  // ---- Polling ----

  /** One round of the loop: the log as it stands, whether it could be read, the job's
      status if the store could answer, and whether the browser has gone. */
  datatype Poll = Poll(log: string, readable: bool, status: Option<JobStatus>, gone: bool)

  datatype StreamEvent = Append(line: string) | Done(status: JobStatus)

  /** The job is over as far as this round can tell. */
  predicate Over(p: Poll) {
    p.status != Some(Running)
  }

  predicate AppendOnly(polls: seq<Poll>) {
    forall i, j :: 0 <= i <= j < |polls| ==> polls[i].log <= polls[j].log
  }

  /** The rounds that take place: none after one that ends the stream. */
  function Taken(polls: seq<Poll>): seq<Poll> {
    if polls == [] then []
    else if Over(polls[0]) || polls[0].gone then [polls[0]]
    else [polls[0]] + Taken(polls[1..])
  }

  /** The log as last read. */
  function Received(polls: seq<Poll>): string {
    if polls == [] then ""
    else if polls[|polls| - 1].readable then polls[|polls| - 1].log
    else Received(polls[..|polls| - 1])
  }

  function Appends(lines: seq<string>): seq<StreamEvent> {
    seq(|lines|, i requires 0 <= i < |lines| => Append(lines[i]))
  }

  function Closing(p: Poll): StreamEvent {
    Done(if p.status.Some? then p.status.value else Failed)
  }

  /** What the browser is to get: the lines of the log as last read, without the
      unfinished one until the job is over, and then the job's status. */
  function Report(polls: seq<Poll>): seq<StreamEvent> {
    var taken := Taken(polls);
    if taken != [] && Over(taken[|taken| - 1])
    then Appends(LinesOf(Received(taken))) + [Closing(taken[|taken| - 1])]
    else Appends(Complete(Received(taken)))
  }

  /** The text known after a round, when the one known before was text. */
  function Known(p: Poll, text: string): string {
    if p.readable then p.log else text
  }

  /** The reading half of one round. */
  method Read(p: Poll, offset: nat, pending: string, ghost text: string)
      returns (events: seq<StreamEvent>, offset': nat, pending': string)
    requires text <= p.log && offset == |text| && pending == Rest(text)
    ensures offset' == |Known(p, text)| && pending' == Rest(Known(p, text))
    ensures Appends(Complete(text)) + events == Appends(Complete(Known(p, text)))
  {
    events, offset', pending' := [], offset, pending;
    assert |p.log| == offset ==> p.log == text;
    if p.readable && |p.log| > offset {
      var buf := p.log[offset..];
      assert text + buf == p.log;
      SplitIncrementally(text, buf);
      offset' := |p.log|;
      pending' := pending + buf;
      var lines := Split(pending');
      pending' := lines[|lines| - 1];
      for i := 0 to |lines| - 1
        invariant events == Appends(lines[..i])
      {
        events := events + [Append(lines[i])];
      }
    }
  }

  predicate NoEndBefore(polls: seq<Poll>, i: nat)
    requires i <= |polls|
  {
    forall j :: 0 <= j < i ==> !Over(polls[j]) && !polls[j].gone
  }

  lemma {:induction false} TakenSplits(polls: seq<Poll>, i: nat)
    requires i < |polls| && NoEndBefore(polls, i)
    ensures if Over(polls[i]) || polls[i].gone || i + 1 == |polls| then Taken(polls) == polls[..i + 1]
            else Taken(polls) == polls[..i + 1] + Taken(polls[i + 1..])
  {
    if i > 0 {
      var rest := polls[1..];
      forall j | 0 <= j < i - 1 ensures !Over(rest[j]) && !rest[j].gone {
        assert rest[j] == polls[j + 1];
      }
      TakenSplits(rest, i - 1);
      assert rest[i..] == polls[i + 1..];
      assert polls[..i + 1] == [polls[0]] + rest[..i];
      assert Taken(polls) == [polls[0]] + Taken(rest);
    }
  }

  /** The report of a stream that the job's end ends in round i. */
  lemma ReportOver(polls: seq<Poll>, i: nat, text: string)
    requires i < |polls| && NoEndBefore(polls, i) && Over(polls[i]) && text == Received(polls[..i + 1])
    ensures Report(polls) == Appends(Complete(text)) + ((if Rest(text) == "" then [] else [Append(Rest(text))])
                                                        + [Closing(polls[i])])
  {
    TakenSplits(polls, i);
    assert polls[..i + 1][i] == polls[i];
    LinesAppended(text);
  }

  /** The report of a stream that the browser leaves in round i. */
  lemma ReportGone(polls: seq<Poll>, i: nat, text: string)
    requires i < |polls| && NoEndBefore(polls, i) && !Over(polls[i]) && polls[i].gone && text == Received(polls[..i + 1])
    ensures Report(polls) == Appends(Complete(text))
  {
    TakenSplits(polls, i);
    assert polls[..i + 1][i] == polls[i];
  }

  lemma LinesAppended(s: string)
    ensures Appends(LinesOf(s)) == Appends(Complete(s)) + if Rest(s) == "" then [] else [Append(Rest(s))]
  {
  }

  /** The report of a stream that no round ends. */
  lemma ReportSoFar(polls: seq<Poll>)
    requires NoEndBefore(polls, |polls|)
    ensures Report(polls) == Appends(Complete(Received(polls)))
  {
    if polls != [] {
      TakenSplits(polls, |polls| - 1);
      assert polls[..|polls|] == polls;
    }
  }

  lemma ReceivedNext(polls: seq<Poll>, i: nat)
    requires i < |polls|
    ensures Received(polls[..i + 1]) == Known(polls[i], Received(polls[..i]))
  {
    assert polls[..i + 1][..i] == polls[..i];
  }

  /** The end of the stream: what is left of the log, and the job's status. */
  method Close(p: Poll, pending: string) returns (events: seq<StreamEvent>)
    requires Over(p)
    ensures events == (if pending == "" then [] else [Append(pending)]) + [Closing(p)]
  {
    events := [];
    if pending != "" {
      events := [Append(pending)];
    }
    var status := Failed;
    if p.status.Some? {
      status := p.status.value;
    }
    events := events + [Done(status)];
  }

  /** The loop sends exactly the report, for every schedule of polls of a log that only
      grows: it never splits, repeats, reorders or loses a line of what it read. */
  method Stream(polls: seq<Poll>) returns (events: seq<StreamEvent>)
    requires AppendOnly(polls)
    ensures events == Report(polls)
  {
    events := [];
    var offset, pending := 0, "";
    ghost var text := "";
    var i := 0;
    while i < |polls|
      invariant i <= |polls| && NoEndBefore(polls, i)
      invariant text == Received(polls[..i]) && forall j :: i <= j < |polls| ==> text <= polls[j].log
      invariant offset == |text| && pending == Rest(text) && events == Appends(Complete(text))
    {
      ReceivedNext(polls, i);
      var more;
      more, offset, pending := Read(polls[i], offset, pending, text);
      text := Known(polls[i], text);
      events := events + more;
      if Over(polls[i]) {
        ReportOver(polls, i, text);
        more := Close(polls[i], pending);
        events := events + more;
        return;
      }
      if polls[i].gone {
        ReportGone(polls, i, text);
        return;
      }
      i := i + 1;
    }
    assert polls[..i] == polls;
    ReportSoFar(polls);
  }

  lemma {:induction false} ReceivedIs(polls: seq<Poll>, r: nat)
    requires r < |polls| && polls[r].readable && forall j :: r < j < |polls| ==> !polls[j].readable
    ensures Received(polls) == polls[r].log
  {
    if r < |polls| - 1 {
      ReceivedIs(polls[..|polls| - 1], r);
    }
  }

  lemma ReportIs(polls: seq<Poll>, r: nat, k: nat)
    requires r <= k < |polls| && NoEndBefore(polls, k) && (Over(polls[k]) || polls[k].gone)
    requires polls[r].readable && forall j :: r < j <= k ==> !polls[j].readable
    ensures Report(polls) == if Over(polls[k]) then Appends(LinesOf(polls[r].log)) + [Closing(polls[k])]
                             else Appends(Complete(polls[r].log))
  {
    hide Taken, Received, Complete, Rest, LinesOf, Appends;
    TakenSplits(polls, k);
    var taken := polls[..k + 1];
    assert taken[k] == polls[k];
    ReceivedIs(taken, r);
  }

  /** Event by event: the lines of the log as the last readable round r found it, one event
      each, in order, and, when round k sees the job over, its unfinished line too and then
      the one closing event, with the status the store gave, or failed if it gave none. */
  lemma ReportExactly(polls: seq<Poll>, r: nat, k: nat)
    requires r <= k < |polls| && NoEndBefore(polls, k) && (Over(polls[k]) || polls[k].gone)
    requires polls[r].readable && forall j :: r < j <= k ==> !polls[j].readable
    ensures var log, events := polls[r].log, Report(polls);
            var lines := if Over(polls[k]) then LinesOf(log) else Complete(log);
            && |events| == |lines| + (if Over(polls[k]) then 1 else 0)
            && (forall i :: 0 <= i < |lines| ==> events[i] == Append(lines[i]))
            && (polls[k].status == None ==> events[|lines|] == Done(Failed))
            && (polls[k].status == Some(Ok) ==> events[|lines|] == Done(Ok))
            && (polls[k].status == Some(Failed) ==> events[|lines|] == Done(Failed))
  {
    hide Report, Complete, LinesOf;
    ReportIs(polls, r, k);
  }

  /** If the writer had finished before the last read, the browser gets every line of the
      log, an unterminated one included, and then the status. */
  lemma FinishedLogIsDeliveredWhole(polls: seq<Poll>, last: Poll)
    requires var taken := Taken(polls); taken != [] && taken[|taken| - 1] == last && last.readable && Over(last)
    ensures Report(polls) == Appends(LinesOf(last.log)) + [Closing(last)]
  {
  }

  /** Reading before asking for the status can cost the end of a log. The lines sent are
      all of them exactly when the last read saw the whole log, or all but the newline
      that ends a last line it did see. */
  lemma LinesMissedExactly(seen: string, whole: string)
    requires seen <= whole
    ensures LinesOf(seen) == LinesOf(whole) <==> whole == seen || (Rest(seen) != "" && whole == seen + "\n")
  {
    LinesRebuild(seen);
    LinesRebuild(whole);
    if whole == seen + "\n" {
      SplitIncrementally(seen, "\n");
      SplitRebuilds(seen);
      TailOfLine(Rest(seen));
    }
  }
}
