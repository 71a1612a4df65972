/** What the paged push guarantees: batching, folding of pages, retries and delivery. */
module Delivery {
  import opened Prelude
  import opened Records
  import opened Paging

  // ---- Exactly-once batching within an attempt

  /** Everything the accepted requests of a run carried, in order. */
  function Pushed(accepted: seq<Exchange>): seq<EncryptedItem> {
    if accepted == [] then [] else accepted[0].request.items + Pushed(accepted[1..])
  }

  /** The slice a request carries is in bounds and within its limit, and only falls short of it at the end. */
  predicate IsSlice(items: seq<EncryptedItem>, request: Request) {
    && (if items == [] then request.items == []
        else
          && request.start + |request.items| <= |items|
          && request.items == items[request.start..request.start + |request.items|])
    && |request.items| <= request.limit
    && (|request.items| == request.limit || request.start + |request.items| >= |items|)
  }

  predicate SlicesOf(items: seq<EncryptedItem>, accepted: seq<Exchange>) {
    forall i :: 0 <= i < |accepted| ==> IsSlice(items, accepted[i].request)
  }

  lemma RequestIsSlice(input: SyncInput)
    requires Ready(input)
    ensures IsSlice(input.items, RequestFor(input))
  {
  }

  lemma {:induction false} AttemptSlices(input: SyncInput, script: seq<Step>)
    requires Ready(input)
    ensures SlicesOf(input.items, Attempt(input, script).accepted)
    decreases |script|
  {
    RequestIsSlice(input);
    hide IsSlice, RequestFor, FinalItem, Limit;
    if NextStep(script).Accept? && Continues(input, NextStep(script).page) {
      AttemptSlices(Advance(input, NextStep(script).page), Rest(script));
    }
  }

  /** The guard under which batching makes progress: index 0 is only left by a batch of two or more. */
  predicate Progresses(input: SyncInput)
    requires Ready(input)
  {
    input.items == [] || input.nextItem > 0 || FinalItem(input) > 0
  }

  function From(input: SyncInput): seq<EncryptedItem>
    requires Ready(input)
  {
    if input.items == [] then [] else input.items[input.nextItem..]
  }

  lemma BatchThenRest(input: SyncInput, page: Page)
    requires Ready(input) && Progresses(input)
    ensures if Continues(input, page)
      then Progresses(Advance(input, page)) && From(input) == Batch(input) + From(Advance(input, page))
      else From(input) == Batch(input)
  {
  }

  lemma {:induction false} AttemptPushesOnce(input: SyncInput, script: seq<Step>)
    requires Ready(input) && Progresses(input)
    ensures var r := Attempt(input, script);
      && Pushed(r.accepted) <= From(input)
      && (r.failure.None? ==> Pushed(r.accepted) == From(input))
    decreases |script|
  {
    if NextStep(script).Accept? {
      var page := NextStep(script).page;
      var r := Attempt(input, script);
      BatchThenRest(input, page);
      hide From, Batch, FinalItem, Limit;
      if Continues(input, page) {
        AttemptPushesOnce(Advance(input, page), Rest(script));
        assert r.accepted[1..] == Attempt(Advance(input, page), Rest(script)).accepted;
      } else {
        assert r.accepted[1..] == [];
      }
    }
  }

  const NO_ITEMS: Page := Page([], [], [], [], "", "")

  ghost predicate PushesExactlyOnce(input: SyncInput)
    requires Ready(input)
  {
    forall script :: Attempt(input, script).failure.None? ==> Pushed(Attempt(input, script).accepted) == From(input)
  }

  /** A stuck input: one answer without a cursor ends the attempt with only the first item pushed. */
  lemma FirstItemOnly(input: SyncInput)
    requires Ready(input) && !Progresses(input)
    ensures var a := Attempt(input, [Accept(NO_ITEMS)]);
      a.failure.None? && a.accepted == [Exchange(RequestFor(input), NO_ITEMS)] && Pushed(a.accepted) == input.items[..1]
  {
    var a := Attempt(input, [Accept(NO_ITEMS)]);
    assert !Continues(input, NO_ITEMS);
    assert a.accepted == [Exchange(RequestFor(input), NO_ITEMS)];
    assert Pushed(a.accepted) == Batch(input) + Pushed([]);
  }

  /** A one-item list is pushed again with every cursor page. */
  lemma PushedTwice(input: SyncInput)
    requires Ready(input) && !Progresses(input) && |input.items| == 1
    ensures var a := Attempt(input, [Accept(NO_ITEMS.(cursorToken := "more")), Accept(NO_ITEMS)]);
      a.failure.None? && |Pushed(a.accepted)| == 2
  {
    var cursor := NO_ITEMS.(cursorToken := "more");
    var last := [Accept(NO_ITEMS)];
    var script := [Accept(cursor), Accept(NO_ITEMS)];
    var next := Advance(input, cursor);
    assert Rest(script) == last;
    FirstItemOnly(next);
    var b, c := Attempt(input, script), Attempt(next, last);
    assert b.accepted == [Exchange(RequestFor(input), cursor)] + c.accepted;
    assert b.accepted[1..] == c.accepted;
  }


  /**
   Every successful attempt pushes exactly the items from the next one on, once and in
   order, whatever the server and the batch sizes, if and only if it can leave index 0.
   Otherwise the first item is all it pushes, again for every page of the cursor.
   */
  lemma BatchingExact(input: SyncInput)
    requires Ready(input)
    ensures PushesExactlyOnce(input) <==> Progresses(input)
  {
    if Progresses(input) {
      forall script | Attempt(input, script).failure.None?
        ensures Pushed(Attempt(input, script).accepted) == From(input)
      {
        AttemptPushesOnce(input, script);
      }
    } else if |input.items| == 1 {
      PushedTwice(input);
    } else {
      FirstItemOnly(input);
    }
  }

  // ---- Folding the pages

  function PageItems(accepted: seq<Exchange>): seq<EncryptedItem> {
    if accepted == [] then [] else accepted[0].page.items + PageItems(accepted[1..])
  }

  function PageSaved(accepted: seq<Exchange>): seq<EncryptedItem> {
    if accepted == [] then [] else accepted[0].page.savedItems + PageSaved(accepted[1..])
  }

  function PageUnsaved(accepted: seq<Exchange>): seq<EncryptedItem> {
    if accepted == [] then [] else accepted[0].page.unsaved + PageUnsaved(accepted[1..])
  }

  function PageConflicts(accepted: seq<Exchange>): seq<ConflictedItem> {
    if accepted == [] then [] else accepted[0].page.conflicts + PageConflicts(accepted[1..])
  }

  /** A successful attempt returns the concatenation of all its pages and the token of the last. */
  lemma {:induction false} PagesFold(input: SyncInput, script: seq<Step>)
    requires Ready(input) && Attempt(input, script).failure.None?
    ensures var r := Attempt(input, script);
      && r.accepted != []
      && r.out.items == PageItems(r.accepted)
      && r.out.savedItems == PageSaved(r.accepted)
      && r.out.unsaved == PageUnsaved(r.accepted)
      && r.out.conflicts == PageConflicts(r.accepted)
      && r.out.syncToken == r.accepted[|r.accepted| - 1].page.syncToken
      && !LiveCursor(r.out.cursorToken)
    decreases |script|
  {
    var page := NextStep(script).page;
    var r := Attempt(input, script);
    if Continues(input, page) {
      var deeper := Attempt(Advance(input, page), Rest(script));
      PagesFold(Advance(input, page), Rest(script));
      assert r.accepted[1..] == deeper.accepted;
    } else {
      assert r.accepted[1..] == [];
    }
  }

  /** Each request carries the sync and cursor tokens of the page before it. */
  lemma {:induction false} TokensChain(input: SyncInput, script: seq<Step>, i: nat)
    requires Ready(input) && i < |Attempt(input, script).accepted|
    ensures var accepted := Attempt(input, script).accepted;
      && accepted[i].request.syncToken
         == StripLineBreak(if i == 0 then input.syncToken else accepted[i - 1].page.syncToken)
      && accepted[i].request.cursorToken
         == StripLineBreak(if i == 0 then input.cursorToken else accepted[i - 1].page.cursorToken)
    decreases |script|
  {
    if i > 0 {
      TokensChain(Advance(input, NextStep(script).page), Rest(script), i - 1);
    }
  }

  /**
   An attempt asks for another page exactly as long as the server's cursor, which ends with the
   empty text or "null", or the list has more: its last cursor has ended, and after any request but
   the last either the cursor goes on or items are left.
   */
  lemma {:induction false} GoesOnExactly(input: SyncInput, script: seq<Step>, i: nat)
    requires Ready(input) && i < |Attempt(input, script).accepted|
    ensures var r := Attempt(input, script);
      var x := r.accepted[i];
      if i < |r.accepted| - 1 then
        x.page.cursorToken !in ["", "null"] || x.request.start + |x.request.items| < |input.items|
      else r.failure.None? ==> x.page.cursorToken in ["", "null"]
    decreases |script|
  {
    var page := NextStep(script).page;
    if Continues(input, page) && i > 0 {
      GoesOnExactly(Advance(input, page), Rest(script), i - 1);
    }
  }

  /** The first request keeps to the page size of the attempt, and each later one to that of the one before it. */
  lemma {:induction false} LimitsStay(input: SyncInput, script: seq<Step>, i: nat)
    requires Ready(input) && i < |Attempt(input, script).accepted|
    ensures var accepted := Attempt(input, script).accepted;
      var given := if i == 0 then input.pageSize else accepted[i - 1].request.limit;
      given > 0 && given != 150 ==> accepted[i].request.limit == given
    decreases |script|
  {
    if i > 0 {
      LimitsStay(Advance(input, NextStep(script).page), Rest(script), i - 1);
    }
  }

  // ---- Paging terminates

  predicate AcceptsAll(script: seq<Step>) {
    forall i :: 0 <= i < |script| ==> script[i].Accept? && Parses(script[i].page)
  }

  /** The pages of a script that promise another page. */
  function LivePages(script: seq<Step>): nat {
    if script == [] then 0
    else (if script[0].Accept? && LiveCursor(script[0].page.cursorToken) then 1 else 0) + LivePages(script[1..])
  }

  function ItemsLeft(input: SyncInput): nat
    requires Ready(input)
  {
    |From(input)|
  }

  /**
   A server that accepts every request, and promises more pages finitely often, is asked at
   most once per promised page and item left, and once more: then the attempt succeeds.
   */
  lemma {:induction false} PagingTerminates(input: SyncInput, script: seq<Step>)
    requires Ready(input) && AcceptsAll(script)
    requires |script| > LivePages(script) + ItemsLeft(input)
    ensures var r := Attempt(input, script);
      r.failure.None? && 1 <= |r.accepted| <= LivePages(script) + ItemsLeft(input) + 1
    decreases |script|
  {
    var page := NextStep(script).page;
    if Continues(input, page) {
      var next := Advance(input, page);
      assert ItemsLeft(next) <= ItemsLeft(input);
      assert LiveCursor(page.cursorToken) || ItemsLeft(next) < ItemsLeft(input);
      PagingTerminates(next, Rest(script));
    }
  }

  // ---- At-least-once delivery across retries

  predicate Carries(exchange: Exchange, k: nat) {
    exchange.request.start <= k < exchange.request.start + |exchange.request.items|
  }

  ghost predicate Delivered(accepted: seq<Exchange>, k: nat) {
    exists i :: 0 <= i < |accepted| && Carries(accepted[i], k)
  }

  ghost predicate DeliveredRange(accepted: seq<Exchange>, lo: nat, hi: int) {
    forall k :: lo <= k < hi ==> Delivered(accepted, k)
  }

  lemma DeliveredAppend(a: seq<Exchange>, b: seq<Exchange>, k: nat)
    ensures Delivered(a + b, k) <==> Delivered(a, k) || Delivered(b, k)
  {
    if i :| 0 <= i < |a| && Carries(a[i], k) {
      assert Carries((a + b)[i], k);
    }
    if i :| 0 <= i < |b| && Carries(b[i], k) {
      assert Carries((a + b)[|a| + i], k);
    }
    if i :| 0 <= i < |a + b| && Carries((a + b)[i], k) {
      assert if i < |a| then Carries(a[i], k) else Carries(b[i - |a|], k);
    }
  }

  /** A successful attempt that can leave index 0 delivers everything from its next item on. */
  lemma {:induction false} AttemptDelivers(input: SyncInput, script: seq<Step>, k: nat)
    requires Ready(input) && input.nextItem <= k < |input.items|
    requires var r := Attempt(input, script);
      if r.failure.None? then Progresses(input) || k == 0 else r.accepted != [] && k <= r.out.lastItemPut
    ensures Delivered(Attempt(input, script).accepted, k)
    decreases |script|
  {
    var r := Attempt(input, script);
    var page := NextStep(script).page;
    assert r.accepted[0] == Exchange(RequestFor(input), page);
    if k <= FinalItem(input) {
      assert Carries(r.accepted[0], k);
    } else {
      var next := Advance(input, page);
      AttemptDelivers(next, Rest(script), k);
      DeliveredAppend([r.accepted[0]], Attempt(next, Rest(script)).accepted, k);
    }
  }

  /** Page sizes that are still at least 2 when the attempts left have each quartered them. */
  predicate Ample(pageSize: int, attempt: nat)
    requires 1 <= attempt <= MAX_ATTEMPTS
  {
    pageSize <= 0 || pageSize > [64, 16, 4, 1][attempt - 1]
  }

  lemma ResizedAmple(pageSize: int, attempt: nat)
    requires 1 <= attempt < MAX_ATTEMPTS && Ample(pageSize, attempt)
    ensures Ample(Resize(pageSize), attempt + 1)
  {
  }

  /** A failed attempt leaves a next item below which everything has been accepted. */
  lemma NextAttemptDelivered(input: SyncInput, script: seq<Step>, before: seq<Exchange>, lo: nat)
    requires Ready(input) && DeliveredRange(before, lo, input.nextItem)
    requires Attempt(input, script).failure.Some?
    ensures var a := Attempt(input, script);
      DeliveredRange(before + a.accepted, lo, RetryInput(input, a.failure.value, a.out.lastItemPut).nextItem)
  {
    var a := Attempt(input, script);
    forall k: nat | lo <= k < RetryInput(input, a.failure.value, a.out.lastItemPut).nextItem
      ensures Delivered(before + a.accepted, k)
    {
      DeliveredAppend(before, a.accepted, k);
      if k >= input.nextItem {
        AttemptDelivers(input, script, k);
      }
    }
  }

  lemma {:induction false} RetryDelivers(input: SyncInput, attempt: nat, script: seq<Step>,
                                         before: seq<Exchange>, lo: nat)
    requires Ready(input) && 1 <= attempt <= MAX_ATTEMPTS
    requires |input.items| <= 1 || Ample(input.pageSize, attempt)
    requires DeliveredRange(before, lo, input.nextItem)
    requires Retry(input, attempt, script).outcome.Succeeded?
    ensures DeliveredRange(before + Retry(input, attempt, script).accepted, lo, |input.items|)
    decreases MAX_ATTEMPTS - attempt
  {
    hide Attempt, Retry;
    var a := Attempt(input, script);
    RetryUnfolds(input, attempt, script);
    if TriesAgain(a, attempt) {
      var next := RetryInput(input, a.failure.value, a.out.lastItemPut);
      NextAttemptDelivered(input, script, before, lo);
      if |input.items| > 1 {
        ResizedAmple(input.pageSize, attempt);
      }
      RetryDelivers(next, attempt + 1, a.rest, before + a.accepted, lo);
      AppendAssociative(before, a.accepted, Retry(next, attempt + 1, a.rest).accepted);
    } else {
      LastAttemptDelivers(input, attempt, script, before, lo);
    }
  }

  lemma LastAttemptDelivers(input: SyncInput, attempt: nat, script: seq<Step>, before: seq<Exchange>, lo: nat)
    requires Ready(input) && 1 <= attempt <= MAX_ATTEMPTS
    requires |input.items| <= 1 || Ample(input.pageSize, attempt)
    requires DeliveredRange(before, lo, input.nextItem)
    requires Attempt(input, script).failure.None?
    ensures DeliveredRange(before + Attempt(input, script).accepted, lo, |input.items|)
  {
    AmpleProgresses(input, attempt);
    hide Attempt, FinalItem, Limit;
    var a := Attempt(input, script);
    forall k: nat | lo <= k < |input.items| ensures Delivered(before + a.accepted, k) {
      DeliveredAppend(before, a.accepted, k);
      if k >= input.nextItem {
        AttemptDelivers(input, script, k);
      }
    }
  }

  lemma AmpleProgresses(input: SyncInput, attempt: nat)
    requires Ready(input) && 1 <= attempt <= MAX_ATTEMPTS
    requires |input.items| <= 1 || Ample(input.pageSize, attempt)
    ensures Progresses(input) || |input.items| == 1
  {
  }

  ghost predicate DeliversAll(input: SyncInput)
    requires Ready(input)
  {
    forall script :: Run(input, script).outcome.Succeeded? ==>
      DeliveredRange(Run(input, script).accepted, input.nextItem, |input.items|)
  }

  /** Three failures that shrink the page, then an accepted request. */
  const SHRINKING: seq<Step> := [Fail(TooLarge), Fail(TooLarge), Fail(TooLarge), Accept(NO_ITEMS)]

  lemma ShrinkingStalls(input: SyncInput)
    requires Ready(input) && input.nextItem < |input.items| && |input.items| > 1
    requires !Ample(input.pageSize, 1)
    ensures Run(input, SHRINKING).outcome.Succeeded?
    ensures !Delivered(Run(input, SHRINKING).accepted, if input.nextItem == 0 then 1 else input.nextItem)
  {
    var s1, s2, s3 := SHRINKING[1..], SHRINKING[2..], SHRINKING[3..];
    var i1 := input.(nextItem := 0, pageSize := Resize(input.pageSize));
    var i2 := i1.(pageSize := Resize(i1.pageSize));
    var i3 := i2.(pageSize := Resize(i2.pageSize));
    assert i3.pageSize == 1;
    assert Retry(i3, 4, s3).accepted == [Exchange(RequestFor(i3), NO_ITEMS)];
    assert Retry(i3, 4, s3).outcome.Succeeded?;
    RetryUnfolds(i2, 3, s2);
    assert Follows(Retry(i2, 3, s2), [], Retry(i3, 4, s3));
    RetryUnfolds(i1, 2, s1);
    assert Follows(Retry(i1, 2, s1), [], Retry(i2, 3, s2));
    RetryUnfolds(input, 1, SHRINKING);
    assert Follows(Retry(input, 1, SHRINKING), [], Retry(i1, 2, s1));
  }

  /**
   For every server script, a run that succeeds has had every item from the first one on
   accepted in some request, if and only if there is at most one item, nothing is left to
   push, or the page size is the default one or more than 64.
   */
  lemma DeliveryExact(input: SyncInput)
    requires Ready(input)
    ensures DeliversAll(input) <==>
      (|input.items| <= 1 || input.nextItem >= |input.items| || Ample(input.pageSize, 1))
  {
    if |input.items| <= 1 || Ample(input.pageSize, 1) {
      forall script | Run(input, script).outcome.Succeeded?
        ensures DeliveredRange(Run(input, script).accepted, input.nextItem, |input.items|)
      {
        RetryDelivers(input, 1, script, [], input.nextItem);
        assert [] + Run(input, script).accepted == Run(input, script).accepted;
      }
    } else if input.nextItem < |input.items| {
      ShrinkingStalls(input);
    }
  }

  // ---- The attempts of a run

  function AcceptedBy(attempts: seq<Tried>): seq<Exchange> {
    if attempts == [] then [] else attempts[0].result.accepted + AcceptedBy(attempts[1..])
  }

  function Shrunk(pageSize: int, times: nat): int
    decreases times
  {
    if times == 0 then pageSize else Shrunk(Resize(pageSize), times - 1)
  }

  lemma DefaultSizesShrink()
    ensures Shrunk(0, 1) == 38 && Shrunk(0, 2) == 10 && Shrunk(0, 3) == 3
  {
    assert Shrunk(38, 1) == 10 && Shrunk(10, 1) == 3;
    assert Shrunk(38, 2) == Shrunk(10, 1);
  }

  /** The attempts that ended in a failure which shrinks the page. */
  function Shrinks(attempts: seq<Tried>): nat {
    if attempts == [] then 0
    else (if attempts[0].result.failure in {Some(TooLarge), Some(Timeout)} then 1 else 0) + Shrinks(attempts[1..])
  }

  /** A run makes at most four attempts, and the last of them decides it. */
  lemma {:induction false} AttemptsBounded(input: SyncInput, attempt: nat, script: seq<Step>)
    requires Ready(input) && 1 <= attempt <= MAX_ATTEMPTS
    ensures var r := Retry(input, attempt, script);
      && 1 <= |r.attempts| <= MAX_ATTEMPTS + 1 - attempt
      && r.attempts[0].input == input
      && r.outcome == OutcomeOf(r.attempts[|r.attempts| - 1].result)
      && r.accepted == AcceptedBy(r.attempts)
    decreases MAX_ATTEMPTS - attempt
  {
    hide Attempt, Retry;
    var a, r := Attempt(input, script), Retry(input, attempt, script);
    RetryUnfolds(input, attempt, script);
    if TriesAgain(a, attempt) {
      var next := RetryInput(input, a.failure.value, a.out.lastItemPut);
      AttemptsBounded(next, attempt + 1, a.rest);
      assert r.attempts[1..] == Retry(next, attempt + 1, a.rest).attempts;
    } else {
      assert r.attempts[1..] == [] && a.accepted + [] == a.accepted;
    }
  }

  /**
   A run that ends in a failure that may pass has made all its attempts, which are four from the
   first on; every attempt before the last met such a failure. So any other failure ends a run as
   soon as it is met.
   */
  lemma {:induction false} AttemptsStop(input: SyncInput, attempt: nat, script: seq<Step>)
    requires Ready(input) && 1 <= attempt <= 4
    ensures var r := Retry(input, attempt, script);
      var n := |r.attempts|;
      && 1 <= n <= 5 - attempt
      && (forall j :: 0 <= j < n - 1 ==>
            r.attempts[j].result.failure in {Some(TooLarge), Some(Timeout), Some(ServerError)})
      && (match r.attempts[n - 1].result.failure
          case None => r.outcome == Succeeded(r.attempts[n - 1].result.out)
          case Some(SessionExpired) => r.outcome == Exited
          case Some(failure) =>
            && r.outcome == Failed(failure)
            && (failure in {TooLarge, Timeout, ServerError} ==> n == 5 - attempt))
    decreases MAX_ATTEMPTS - attempt
  {
    hide Attempt, Retry;
    var a, r := Attempt(input, script), Retry(input, attempt, script);
    RetryUnfolds(input, attempt, script);
    if TriesAgain(a, attempt) {
      var next := RetryInput(input, a.failure.value, a.out.lastItemPut);
      AttemptsStop(next, attempt + 1, a.rest);
      var again := Retry(next, attempt + 1, a.rest);
      assert forall j :: 0 < j < |r.attempts| ==> r.attempts[j] == again.attempts[j - 1];
    }
  }

  /** What a failed attempt remembers is where its first accepted request ended. */
  lemma LastPut(input: SyncInput, script: seq<Step>)
    requires Ready(input) && Attempt(input, script).failure.Some?
    ensures var a := Attempt(input, script);
      a.out.lastItemPut ==
        if input.items == [] || a.accepted == [] then 0
        else a.accepted[0].request.start + |a.accepted[0].request.items| - 1
  {
  }

  /** How a failed attempt and the input of the next one go together. */
  ghost predicate IsRestart(failed: Tried, next: SyncInput) {
    var first := failed.result.accepted;
    if failed.result.failure == Some(ServerError) then next == failed.input
    else
      && next == failed.input.(nextItem := next.nextItem, pageSize := next.pageSize)
      && next.nextItem ==
           (if failed.input.items == [] || first == [] then 0
            else first[0].request.start + |first[0].request.items| - 1)
  }

  lemma NextRestarts(input: SyncInput, script: seq<Step>)
    requires Ready(input) && Attempt(input, script).failure.Some?
    ensures var a := Attempt(input, script);
      IsRestart(Tried(input, a), RetryInput(input, a.failure.value, a.out.lastItemPut))
  {
    LastPut(input, script);
    hide Attempt;
  }

  /**
   After a server error the same input is tried again. After the other failures the next attempt
   starts from the last item of the first request that the failed one had accepted, or from 0.
   */
  lemma {:induction false} AttemptRestarts(input: SyncInput, attempt: nat, script: seq<Step>, j: nat)
    requires Ready(input) && 1 <= attempt <= 4
    requires j + 1 < |Retry(input, attempt, script).attempts|
    ensures var r := Retry(input, attempt, script); IsRestart(r.attempts[j], r.attempts[j + 1].input)
    decreases MAX_ATTEMPTS - attempt
  {
    hide Attempt, Retry, IsRestart, RetryInput;
    var a, r := Attempt(input, script), Retry(input, attempt, script);
    RetryUnfolds(input, attempt, script);
    var next := RetryInput(input, a.failure.value, a.out.lastItemPut);
    var again := Retry(next, attempt + 1, a.rest);
    assert r.attempts[0] == Tried(input, a) && r.attempts[j + 1] == again.attempts[j];
    if j == 0 {
      NextRestarts(input, script);
      AttemptsBounded(next, attempt + 1, a.rest);
    } else {
      assert r.attempts[j] == again.attempts[j - 1];
      AttemptRestarts(next, attempt + 1, a.rest, j - 1);
    }
  }

  /** Each page size is the first one, quartered for every earlier failure but a server error. */
  lemma {:induction false} AttemptSizes(input: SyncInput, attempt: nat, script: seq<Step>, j: nat)
    requires Ready(input) && 1 <= attempt <= MAX_ATTEMPTS
    requires j < |Retry(input, attempt, script).attempts|
    ensures var r := Retry(input, attempt, script);
      r.attempts[j].input.pageSize == Shrunk(input.pageSize, Shrinks(r.attempts[..j]))
    decreases MAX_ATTEMPTS - attempt
  {
    hide Attempt, Retry;
    var a, r := Attempt(input, script), Retry(input, attempt, script);
    RetryUnfolds(input, attempt, script);
    if j > 0 {
      var next := RetryInput(input, a.failure.value, a.out.lastItemPut);
      AttemptSizes(next, attempt + 1, a.rest, j - 1);
      var again := Retry(next, attempt + 1, a.rest);
      assert r.attempts[..j][1..] == again.attempts[..j - 1];
    }
  }

  /**
   Each attempt of a run starts where everything from the first item up to its next item
   has been accepted by the attempts before it.
   */
  lemma {:induction false} AttemptStarts(input: SyncInput, attempt: nat, script: seq<Step>,
                                         before: seq<Exchange>, lo: nat, j: nat)
    requires Ready(input) && 1 <= attempt <= MAX_ATTEMPTS
    requires DeliveredRange(before, lo, input.nextItem)
    requires j < |Retry(input, attempt, script).attempts|
    ensures var r := Retry(input, attempt, script);
      DeliveredRange(before + AcceptedBy(r.attempts[..j]), lo, r.attempts[j].input.nextItem)
    decreases MAX_ATTEMPTS - attempt
  {
    hide Attempt, Retry;
    var a, r := Attempt(input, script), Retry(input, attempt, script);
    RetryUnfolds(input, attempt, script);
    if j == 0 {
      assert before + [] == before;
    } else {
      var next := RetryInput(input, a.failure.value, a.out.lastItemPut);
      var again := Retry(next, attempt + 1, a.rest);
      NextAttemptDelivered(input, script, before, lo);
      AttemptStarts(next, attempt + 1, a.rest, before + a.accepted, lo, j - 1);
      assert r.attempts[..j][1..] == again.attempts[..j - 1];
      AppendAssociative(before, a.accepted, AcceptedBy(again.attempts[..j - 1]));
    }
  }

  // ---- Items through a whole run

  predicate InPages(accepted: seq<Exchange>, x: EncryptedItem) {
    exists i :: 0 <= i < |accepted| && x in accepted[i].page.items
  }

  predicate InRequests(accepted: seq<Exchange>, x: EncryptedItem) {
    exists i :: 0 <= i < |accepted| && x in accepted[i].request.items
  }

  lemma {:induction false} PageItemsInPages(accepted: seq<Exchange>, x: EncryptedItem)
    ensures x in PageItems(accepted) <==> InPages(accepted, x)
  {
    if accepted != [] {
      PageItemsInPages(accepted[1..], x);
      if x in accepted[0].page.items {
        assert InPages(accepted, x);
      } else if i :| 0 <= i < |accepted| && x in accepted[i].page.items {
        assert x in accepted[1..][i - 1].page.items;
      }
      if i :| 0 <= i < |accepted[1..]| && x in accepted[1..][i].page.items {
        assert x in accepted[i + 1].page.items;
      }
    }
  }

  ghost predicate Within(items: seq<EncryptedItem>, accepted: seq<Exchange>) {
    forall x :: x in items ==> InPages(accepted, x)
  }

  lemma WithinLater(items: seq<EncryptedItem>, before: seq<Exchange>, after: seq<Exchange>)
    requires Within(items, after)
    ensures Within(items, before + after)
  {
    forall x | x in items ensures InPages(before + after, x) {
      var i :| 0 <= i < |after| && x in after[i].page.items;
      assert (before + after)[|before| + i] == after[i];
    }
  }

  lemma SlicesAppend(items: seq<EncryptedItem>, a: seq<Exchange>, b: seq<Exchange>)
    requires SlicesOf(items, a) && SlicesOf(items, b)
    ensures SlicesOf(items, a + b)
  {
  }

  lemma AttemptWithin(input: SyncInput, script: seq<Step>)
    requires Ready(input) && Attempt(input, script).failure.None?
    ensures Within(Attempt(input, script).out.items, Attempt(input, script).accepted)
  {
    PagesFold(input, script);
    hide Attempt;
    var a := Attempt(input, script);
    forall x | x in a.out.items ensures InPages(a.accepted, x) {
      PageItemsInPages(a.accepted, x);
    }
  }

  /** The output of a successful run comes from its pages, and its requests carry only its items. */
  lemma {:induction false} RunStaysWithin(input: SyncInput, attempt: nat, script: seq<Step>)
    requires Ready(input) && 1 <= attempt <= MAX_ATTEMPTS
    ensures var r := Retry(input, attempt, script);
      && SlicesOf(input.items, r.accepted)
      && (r.outcome.Succeeded? ==> Within(r.outcome.out.items, r.accepted))
    decreases MAX_ATTEMPTS - attempt
  {
    RetryUnfolds(input, attempt, script);
    AttemptSlices(input, script);
    hide Attempt, Retry, SlicesOf, Within, Ready;
    var a := Attempt(input, script);
    if TriesAgain(a, attempt) {
      var next := RetryInput(input, a.failure.value, a.out.lastItemPut);
      var again := Retry(next, attempt + 1, a.rest);
      RunStaysWithin(next, attempt + 1, a.rest);
      SlicesAppend(input.items, a.accepted, again.accepted);
      if again.outcome.Succeeded? {
        WithinLater(again.outcome.out.items, a.accepted, again.accepted);
      }
    } else if a.failure.None? {
      AttemptWithin(input, script);
    }
  }

  /** With an ample page size, a successful run from index 0 has had every item accepted. */
  lemma RunDelivers(input: SyncInput, script: seq<Step>, x: EncryptedItem)
    requires Ready(input) && input.nextItem == 0 && Ample(input.pageSize, 1)
    requires Run(input, script).outcome.Succeeded? && x in input.items
    ensures InRequests(Run(input, script).accepted, x)
  {
    DeliveryExact(input);
    RunStaysWithin(input, 1, script);
    hide Retry, Ample;
    var accepted := Run(input, script).accepted;
    var k :| 0 <= k < |input.items| && input.items[k] == x;
    assert Delivered(accepted, k);
    var i :| 0 <= i < |accepted| && Carries(accepted[i], k);
    var request := accepted[i].request;
    assert request.items[k - request.start] == x;
  }
}
