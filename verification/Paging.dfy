/**
 The paged push and pull of items/sync.go as a protocol over a scripted server: one
 attempt pushes a list in batches while it follows the server's cursor; failed attempts
 are retried from a remembered index with a smaller page.
 */
module Paging {
  import opened Prelude
  import opened Records

  const PAGE_SIZE := 150
  const MAX_PAGE_SIZE := 500
  const MIN_PAGE_SIZE := 50
  const TARGET_PAYLOAD_SIZE := 262144
  const SAMPLE_SIZE := 10
  const ITEM_OVERHEAD := 200
  const MAX_ATTEMPTS := 4

  // ---- The server and what travels to and from it

  datatype Page = Page(
    items: seq<EncryptedItem>, savedItems: seq<EncryptedItem>, unsaved: seq<EncryptedItem>,
    conflicts: seq<ConflictedItem>, syncToken: string, cursorToken: string)

  // The kinds of error text that the retry closure tells apart, in its order of tests.
  // An "EOF" error is one of Other: the test for it looks for capitals in lower-case text.
  datatype Failure = SessionExpired | TooLarge | Timeout | Unauthorized | GivingUp | ServerError | Other

  datatype Step = Accept(page: Page) | Fail(failure: Failure)

  datatype Request = Request(
    items: seq<EncryptedItem>, start: nat, limit: int, syncToken: string, cursorToken: string)

  datatype Exchange = Exchange(request: Request, page: Page)

  /** A page is rejected while it is parsed when an items key claims to be encrypted by an items key. */
  predicate Parses(page: Page) {
    forall i :: 0 <= i < |page.items| ==>
      !(page.items[i].contentType == ITEMS_KEY && page.items[i].itemsKeyId != "")
  }

  /** What the client makes of the server's next step; a server that is gone fails every request. */
  function NextStep(script: seq<Step>): Step {
    if script == [] then Fail(Other)
    else if script[0].Accept? && !Parses(script[0].page) then Fail(Other)
    else script[0]
  }

  function Rest(script: seq<Step>): seq<Step> {
    if script == [] then [] else script[1..]
  }

  class Server {
    var script: seq<Step>
    var accepted: seq<Exchange>  // the acknowledged requests, oldest first

    constructor (script: seq<Step>)
      ensures this.script == script && accepted == []
    {
      this.script := script;
      accepted := [];
    }

    method Post(request: Request) returns (step: Step)
      modifies this
      ensures step == NextStep(old(script)) && script == Rest(old(script))
      ensures accepted == old(accepted) + if step.Accept? then [Exchange(request, step.page)] else []
      ensures old(script) != [] && old(script)[0].Fail? ==> step == old(script)[0]
      ensures old(script) != [] && old(script)[0].Accept? ==>
        if exists e :: e in old(script)[0].page.items && e.contentType == "SN|ItemsKey" && e.itemsKeyId != ""
        then step.Fail? else step == old(script)[0]
    {
      step := NextStep(script);
      script := Rest(script);
      if step.Accept? {
        accepted := accepted + [Exchange(request, step.page)];
      }
    }
  }

  // ---- Batch sizes

  datatype SyncInput = SyncInput(
    items: seq<EncryptedItem>, nextItem: nat, pageSize: int, syncToken: string, cursorToken: string)

  /** The index of the next item may be anywhere in the list or just past it. */
  predicate Ready(input: SyncInput) {
    input.items == [] || input.nextItem <= |input.items|
  }

  function PayloadSize(items: seq<EncryptedItem>): nat {
    if items == [] then 0
    else PayloadSize(items[..|items| - 1]) + |items[|items| - 1].content| + ITEM_OVERHEAD
  }

  lemma {:induction false} PayloadSizeAtLeast(items: seq<EncryptedItem>)
    ensures PayloadSize(items) >= ITEM_OVERHEAD * |items|
  {
    if items != [] {
      PayloadSizeAtLeast(items[..|items| - 1]);
    }
  }

  /** Sizes add up, and one item counts its content and 200 bytes more. */
  lemma {:induction false} PayloadAdds(a: seq<EncryptedItem>, b: seq<EncryptedItem>, e: EncryptedItem)
    ensures PayloadSize(a + b) == PayloadSize(a) + PayloadSize(b)
    ensures PayloadSize([e]) == |e.content| + 200
  {
    assert [e][..0] == [];
    if b == [] {
      assert a + b == a;
    } else {
      assert (a + b)[..|a + b| - 1] == a + b[..|b| - 1];
      PayloadAdds(a, b[..|b| - 1], e);
    }
  }

  function Sample(items: seq<EncryptedItem>, start: nat): seq<EncryptedItem>
    requires start < |items|
  {
    items[start..start + Min(SAMPLE_SIZE, |items| - start)]
  }

  /** The estimated size of one item, over a sample of at most ten. */
  function AverageSize(items: seq<EncryptedItem>, start: nat): (average: nat)
    requires start < |items|
    ensures average >= ITEM_OVERHEAD
  {
    var sample := Sample(items, start);
    PayloadSizeAtLeast(sample);
    PayloadSize(sample) / |sample|
  }

  function Clamp(size: int): int {
    if size < MIN_PAGE_SIZE then MIN_PAGE_SIZE
    else if size > MAX_PAGE_SIZE then MAX_PAGE_SIZE
    else size
  }

  function OptimalBatchSize(items: seq<EncryptedItem>, start: nat, defaultSize: int): int {
    if start >= |items| then defaultSize
    else Clamp(TARGET_PAYLOAD_SIZE / AverageSize(items, start))
  }

  /** The average size of the next ten items, or of all that are left, rounded down. */
  lemma AverageOfSample(items: seq<EncryptedItem>, start: nat)
    requires start < |items|
    ensures var average := AverageSize(items, start);
      var n := if |items| - start < 10 then |items| - start else 10;
      average * n <= PayloadSize(items[start..start + n]) < (average + 1) * n
  {
    var sample := Sample(items, start);
    QuotientBounds(PayloadSize(sample), |sample|, AverageSize(items, start));
  }

  /**
   The batch size is the largest whose estimated payload stays within 256 KB, unless that falls
   outside the bounds of 50 and 500 items.
   */
  method CalculateOptimalBatchSize(items: seq<EncryptedItem>, startIdx: nat, defaultSize: int) returns (size: int)
    ensures size == OptimalBatchSize(items, startIdx, defaultSize)
    ensures startIdx < |items| ==>
      var average := AverageSize(items, startIdx);
      && 50 <= size <= 500
      && (size > 50 ==> size * average <= 256 * 1024)
      && (size < 500 ==> (size + 1) * average > 256 * 1024)
  {
    if |items| <= startIdx {
      return defaultSize;
    }
    var sampleSize := SAMPLE_SIZE;
    var remainingItems := |items| - startIdx;
    if sampleSize > remainingItems {
      sampleSize := remainingItems;
    }
    var totalSize := 0;
    ghost var sample := Sample(items, startIdx);
    for i := 0 to sampleSize
      invariant totalSize == PayloadSize(sample[..i])
    {
      assert sample[..i + 1][..i] == sample[..i];
      totalSize := totalSize + |items[startIdx + i].content| + ITEM_OVERHEAD;
    }
    assert sample[..sampleSize] == sample;
    PayloadSizeAtLeast(sample);
    var avgItemSize := totalSize / sampleSize;
    assert avgItemSize == AverageSize(items, startIdx);
    if avgItemSize == 0 {
      return defaultSize;
    }
    var optimalSize := TARGET_PAYLOAD_SIZE / avgItemSize;
    QuotientBounds(TARGET_PAYLOAD_SIZE, avgItemSize, optimalSize);
    if optimalSize < MIN_PAGE_SIZE {
      SmallerProduct(optimalSize + 1, MIN_PAGE_SIZE + 1, avgItemSize);
      return MIN_PAGE_SIZE;
    }
    if optimalSize > MAX_PAGE_SIZE {
      SmallerProduct(MAX_PAGE_SIZE, optimalSize, avgItemSize);
      return MAX_PAGE_SIZE;
    }
    return optimalSize;
  }

  lemma QuotientBounds(n: nat, d: nat, q: int)
    requires d > 0 && q == n / d
    ensures q * d <= n < (q + 1) * d
  {
  }

  lemma SmallerProduct(a: int, b: int, c: nat)
    requires a <= b
    ensures a * c <= b * c
  {
  }

  function DetermineLimit(pageSize: int): int {
    if pageSize > 0 then pageSize else PAGE_SIZE
  }

  /** The page size used for one request: chosen by payload when the default applies. */
  function Limit(input: SyncInput): (limit: int)
    ensures limit > 0
  {
    var limit := DetermineLimit(input.pageSize);
    if limit == PAGE_SIZE && input.items != [] && input.nextItem < |input.items|
    then OptimalBatchSize(input.items, input.nextItem, limit)
    else limit
  }

  /** A page size that is given and not the default is used as it is; otherwise it depends on the payload. */
  lemma LimitChosen(input: SyncInput)
    ensures input.pageSize > 0 && input.pageSize != 150 ==> Limit(input) == input.pageSize
    ensures input.pageSize <= 0 || input.pageSize == 150 ==>
      if input.nextItem < |input.items| then Limit(input) == OptimalBatchSize(input.items, input.nextItem, 150)
      else Limit(input) == 150
  {
  }

  /** The index of the last item of the next batch; 0 when there is nothing to push. */
  function FinalItem(input: SyncInput): (final: nat)
    requires Ready(input)
    ensures final <= |input.items|
    ensures input.items != [] ==> input.nextItem - 1 <= final < |input.items|
  {
    if input.items == [] then 0
    else Min(|input.items| - 1, input.nextItem + Limit(input) - 1)
  }

  function Batch(input: SyncInput): (batch: seq<EncryptedItem>)
    requires Ready(input)
    ensures |batch| <= Limit(input)
  {
    if input.items == [] then []
    else input.items[input.nextItem..FinalItem(input) + 1]
  }

  function StripLineBreak(s: string): string {
    if s != "" && s[|s| - 1] == '\n' then s[..|s| - 1] else s
  }

  lemma OneLineBreakGoes(s: string)
    ensures StripLineBreak(s + "\n") == s
    ensures (s == "" || s[|s| - 1] != '\n') ==> StripLineBreak(s) == s
  {
  }

  function RequestFor(input: SyncInput): Request
    requires Ready(input)
  {
    Request(Batch(input), input.nextItem, Limit(input),
            StripLineBreak(input.syncToken), StripLineBreak(input.cursorToken))
  }

  // ---- One attempt

  datatype Response = Response(
    items: seq<EncryptedItem>, savedItems: seq<EncryptedItem>, unsaved: seq<EncryptedItem>,
    conflicts: seq<ConflictedItem>, syncToken: string, cursorToken: string,
    lastItemPut: nat, putLimitUsed: int)

  function Blank(limit: int): Response {
    Response([], [], [], [], "", "", 0, limit)
  }

  function FromPage(page: Page, final: nat, limit: int): Response {
    Response(page.items, page.savedItems, page.unsaved, page.conflicts,
             page.syncToken, page.cursorToken, final, limit)
  }

  /** The pages of a deeper call are appended; its sync token replaces this one's. */
  function Merge(here: Response, deeper: Response): Response {
    here.(items := here.items + deeper.items,
          savedItems := here.savedItems + deeper.savedItems,
          unsaved := here.unsaved + deeper.unsaved,
          conflicts := here.conflicts + deeper.conflicts,
          syncToken := deeper.syncToken,
          cursorToken := "")
  }

  predicate LiveCursor(cursor: string) {
    cursor != "" && cursor != "null"
  }

  predicate Continues(input: SyncInput, page: Page)
    requires Ready(input)
  {
    (0 < FinalItem(input) < |input.items| - 1) || LiveCursor(page.cursorToken)
  }

  function Advance(input: SyncInput, page: Page): (next: SyncInput)
    requires Ready(input)
    ensures Ready(next)
  {
    input.(syncToken := page.syncToken,
           cursorToken := page.cursorToken,
           pageSize := Limit(input),
           nextItem := if FinalItem(input) > 0 then FinalItem(input) + 1 else input.nextItem)
  }

  datatype AttemptResult = AttemptResult(
    out: Response, failure: Option<Failure>, accepted: seq<Exchange>, rest: seq<Step>)

  function Attempt(input: SyncInput, script: seq<Step>): (r: AttemptResult)
    requires Ready(input)
    ensures input.items != [] ==> r.out.lastItemPut < |input.items|
    decreases |script|
  {
    var limit := Limit(input);
    match NextStep(script)
    case Fail(failure) => AttemptResult(Blank(limit), Some(failure), [], Rest(script))
    case Accept(page) =>
      var here := FromPage(page, FinalItem(input), limit);
      var exchange := Exchange(RequestFor(input), page);
      if Continues(input, page) then
        var deeper := Attempt(Advance(input, page), Rest(script));
        AttemptResult(if deeper.failure.None? then Merge(here, deeper.out) else here,
                      deeper.failure, [exchange] + deeper.accepted, deeper.rest)
      else
        AttemptResult(here, None, [exchange], Rest(script))
  }

  method SyncItemsViaApi(server: Server, input: SyncInput) returns (out: Response, err: Option<Failure>)
    requires Ready(input)
    modifies server
    ensures var r := Attempt(input, old(server.script));
      && out == r.out && err == r.failure && server.script == r.rest
      && server.accepted == old(server.accepted) + r.accepted
    decreases |server.script|
  {
    var limit := DetermineLimit(input.pageSize);
    if limit == PAGE_SIZE && |input.items| > 0 && input.nextItem < |input.items| {
      var dynamicLimit := CalculateOptimalBatchSize(input.items, input.nextItem, limit);
      if dynamicLimit != limit {
        limit := dynamicLimit;
      }
    }
    assert limit == Limit(input);
    out := Blank(limit);
    err := None;
    var batch: seq<EncryptedItem>, finalItem := [], 0;
    if |input.items| != 0 {
      finalItem := Min(|input.items| - 1, input.nextItem + limit - 1);
      batch := input.items[input.nextItem..finalItem + 1];
    }
    var request := Request(batch, input.nextItem, limit,
                           StripLineBreak(input.syncToken), StripLineBreak(input.cursorToken));
    assert finalItem == FinalItem(input) && request == RequestFor(input);
    hide Limit, FinalItem, Batch, RequestFor;
    var step := server.Post(request);
    if step.Fail? {
      err := Some(step.failure);
      return;
    }
    var page := step.page;
    out := FromPage(page, finalItem, limit);
    ghost var here, exchange, script := out, Exchange(request, page), server.script;
    if (0 < finalItem < |input.items| - 1) || (page.cursorToken != "" && page.cursorToken != "null") {
      var next := input.(syncToken := out.syncToken, cursorToken := out.cursorToken, pageSize := limit);
      if finalItem > 0 {
        next := next.(nextItem := finalItem + 1);
      }
      assert next == Advance(input, page);
      ghost var deeper := Attempt(next, script);
      var newOutput;
      newOutput, err := SyncItemsViaApi(server, next);
      AppendAssociative(old(server.accepted), [exchange], deeper.accepted);
      assert newOutput == deeper.out && err == deeper.failure;
      if err.Some? {
        return;
      }
      out := out.(items := out.items + newOutput.items,
                  savedItems := out.savedItems + newOutput.savedItems,
                  unsaved := out.unsaved + newOutput.unsaved,
                  conflicts := out.conflicts + newOutput.conflicts,
                  syncToken := newOutput.syncToken,
                  lastItemPut := finalItem);
    } else {
      return;
    }
    out := out.(cursorToken := "");
    assert out == Merge(here, Attempt(Advance(input, page), script).out);
  }

  // ---- Retries

  /** A quarter of the page size, rounded up; the default size is 150. */
  function Resize(pageSize: int): int {
    var size := if pageSize != 0 then pageSize else PAGE_SIZE;
    -((-size) / 4)
  }

  /** The new page size is the least that, taken four times, reaches the old one. */
  lemma Quartered(pageSize: int)
    ensures var size := if pageSize == 0 then 150 else pageSize;
      4 * (Resize(pageSize) - 1) < size <= 4 * Resize(pageSize)
  {
  }

  datatype Outcome = Succeeded(out: Response) | Failed(failure: Failure) | Exited

  datatype Tried = Tried(input: SyncInput, result: AttemptResult)

  datatype RunResult = RunResult(
    outcome: Outcome, accepted: seq<Exchange>, attempts: seq<Tried>, rest: seq<Step>)

  predicate Retryable(failure: Failure) {
    failure.TooLarge? || failure.Timeout? || failure.ServerError?
  }

  function RetryInput(input: SyncInput, failure: Failure, lastItemPut: nat): (next: SyncInput)
    requires Ready(input) && (input.items != [] ==> lastItemPut < |input.items|)
    ensures Ready(next) && next.items == input.items
  {
    if failure.ServerError? then input
    else input.(nextItem := lastItemPut, pageSize := Resize(input.pageSize))
  }

  function Retry(input: SyncInput, attempt: nat, script: seq<Step>): RunResult
    requires Ready(input) && 1 <= attempt <= MAX_ATTEMPTS
    decreases MAX_ATTEMPTS - attempt
  {
    var a := Attempt(input, script);
    match a.failure
    case None => RunResult(Succeeded(a.out), a.accepted, [Tried(input, a)], a.rest)
    case Some(failure) =>
      if failure.SessionExpired? then RunResult(Exited, a.accepted, [Tried(input, a)], a.rest)
      else if Retryable(failure) && attempt < MAX_ATTEMPTS then
        var again := Retry(RetryInput(input, failure, a.out.lastItemPut), attempt + 1, a.rest);
        RunResult(again.outcome, a.accepted + again.accepted, [Tried(input, a)] + again.attempts, again.rest)
      else RunResult(Failed(failure), a.accepted, [Tried(input, a)], a.rest)
  }

  function Run(input: SyncInput, script: seq<Step>): RunResult
    requires Ready(input)
  {
    Retry(input, 1, script)
  }

  ghost predicate Follows(whole: RunResult, before: seq<Exchange>, left: RunResult) {
    && whole.outcome == left.outcome
    && whole.accepted == before + left.accepted
    && whole.rest == left.rest
  }

  /** Whether the retry closure asks for another attempt after this one. */
  predicate TriesAgain(a: AttemptResult, attempt: nat) {
    a.failure.Some? && Retryable(a.failure.value) && attempt < MAX_ATTEMPTS
  }

  function OutcomeOf(a: AttemptResult): Outcome {
    match a.failure
    case None => Succeeded(a.out)
    case Some(failure) => if failure.SessionExpired? then Exited else Failed(failure)
  }

  lemma RetryUnfolds(input: SyncInput, attempt: nat, script: seq<Step>)
    requires Ready(input) && 1 <= attempt <= MAX_ATTEMPTS
    ensures var a, r := Attempt(input, script), Retry(input, attempt, script);
      if TriesAgain(a, attempt) then
        var next := RetryInput(input, a.failure.value, a.out.lastItemPut);
        && Follows(r, a.accepted, Retry(next, attempt + 1, a.rest))
        && r.attempts == [Tried(input, a)] + Retry(next, attempt + 1, a.rest).attempts
      else
        r.outcome == OutcomeOf(a) && r.accepted == a.accepted && r.rest == a.rest && r.attempts == [Tried(input, a)]
  {
  }

  /** The closure that is retried: one attempt, and what it changes for the next one. */
  method TryOnce(server: Server, input: SyncInput, attempt: nat)
    returns (again: bool, i: SyncInput, outcome: Outcome)
    requires Ready(input)
    modifies server
    ensures Ready(i)
    ensures var a := Attempt(input, old(server.script));
      && server.script == a.rest && server.accepted == old(server.accepted) + a.accepted
      && (again <==> attempt < 4 && a.failure in {Some(TooLarge), Some(Timeout), Some(ServerError)})
      && outcome == OutcomeOf(a)
      && (again && a.failure == Some(ServerError) ==> i == input)
      && (again && a.failure != Some(ServerError) ==>
            i == input.(nextItem := a.out.lastItemPut, pageSize := Resize(input.pageSize)))
  {
    i := input;
    var sResp, rErr := SyncItemsViaApi(server, i);
    if rErr.None? {
      return false, i, Succeeded(sResp);
    }
    outcome := Failed(rErr.value);
    match rErr.value {
      case SessionExpired =>
        return false, i, Exited;
      case TooLarge =>
        i := i.(nextItem := sResp.lastItemPut, pageSize := Resize(i.pageSize));
      case Timeout =>
        i := i.(nextItem := sResp.lastItemPut, pageSize := Resize(i.pageSize));
      case ServerError =>
      case _ =>
        return false, i, outcome;
    }
    again := attempt < MAX_ATTEMPTS;
  }

  method SyncWithRetries(server: Server, input: SyncInput) returns (outcome: Outcome)
    requires Ready(input)
    modifies server
    ensures var r := Run(input, old(server.script));
      && outcome == r.outcome && server.script == r.rest
      && server.accepted == old(server.accepted) + r.accepted
  {
    ghost var whole, log := Run(input, server.script), server.accepted;
    var i, attempt, again := input, 1, true;
    outcome := Exited;
    ghost var before := [];
    while again
      invariant 1 <= attempt <= MAX_ATTEMPTS && Ready(i)
      invariant server.accepted == log + before
      invariant again ==> Follows(whole, before, Retry(i, attempt, server.script))
      invariant !again ==> outcome == whole.outcome && before == whole.accepted && server.script == whole.rest
      decreases again, MAX_ATTEMPTS - attempt
    {
      ghost var left := Retry(i, attempt, server.script);
      ghost var more := Attempt(i, server.script).accepted;
      RetryUnfolds(i, attempt, server.script);
      AppendAssociative(log, before, more);
      again, i, outcome := TryOnce(server, i, attempt);
      if again {
        attempt := attempt + 1;
        AppendAssociative(before, more, Retry(i, attempt, server.script).accepted);
      }
      before := before + more;
    }
  }
}
