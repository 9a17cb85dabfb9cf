/**
 The flow control of the crawler: the fetch loop, the completion callbacks that push records and
 start the fetch loop again, and the overflow buffer. Calls nest as in the source: a fetch may
 complete while it is being submitted, its callback pushes the record, and a push fetches more.
 What the URL queue, the hub, the resolver and the network answer is arbitrary.
 */
module Crawler {

  // ---------- Answers from outside ----------

  /** What `qcrawler_need_crawl` asks the filter and the store. */
  datatype Facts = Facts(wantsThumb: bool, filtered: bool, tagged: bool, thumbStored: bool,
                         insertOnly: bool, crawledBefore: bool)

  datatype CrawlStatus = Unset | Disallowed | Crawled | NotNeed

  /** An answer of the URL queue: a record, something that cannot be unpacked, or nothing. */
  datatype PopResult = PopRecord(redirects: int, facts: Facts) | PopGarbage | PopAgain | PopError

  datatype PushResult = PushOk | PushAgain | PushWarn | PushError

  datatype ErrorCode =
    | DnsError | DnsFatalError | SocketError | TimeoutError | ConnectError | ReadError | HttpFormatError

  /** How a fetch ended: with a parsed response, or without one. */
  datatype Outcome = Response(code: int, validLocation: bool) | Error(why: ErrorCode)

  /** Whether to crawl a record; if not, its status. */
  function NeedCrawl(facts: Facts): (bool, CrawlStatus) {
    if facts.filtered then (false, Disallowed)
    else if facts.wantsThumb then
      if facts.tagged && facts.thumbStored then (false, Crawled) else (true, Unset)
    else if facts.insertOnly && facts.crawledBefore then (false, NotNeed)
    else (true, Unset)
  }

  /**
   Which records are submitted and which are not even pushed: a filtered page is neither fetched nor
   forgotten; a thumbnail that is stored, and a page to be inserted once that was crawled, are not
   fetched again, and only the latter is forgotten.
   */
  lemma NeedCrawlMeans(facts: Facts)
    ensures var (need, status) := NeedCrawl(facts);
            && (facts.filtered ==> !need && status == Disallowed)
            && (!facts.filtered && facts.wantsThumb ==> need == !(facts.tagged && facts.thumbStored))
            && (!facts.filtered && !facts.wantsThumb ==> need == !(facts.insertOnly && facts.crawledBefore))
            && (status == NotNeed <==>
                  !facts.filtered && !facts.wantsThumb && facts.insertOnly && facts.crawledBefore)
  {
  }

  /** How many of the answers to come are records. */
  function RecordCount(urls: seq<PopResult>): nat {
    if urls == [] then 0 else (if urls[0].PopRecord? then 1 else 0) + RecordCount(urls[1..])
  }

  /** The answers still to come are the last ones of those that were to come before. */
  predicate IsRest(rest: seq<PopResult>, urls: seq<PopResult>) {
    |rest| <= |urls| && rest == urls[|urls| - |rest|..]
  }

  lemma IsRestChain(first: seq<PopResult>, middle: seq<PopResult>, last: seq<PopResult>)
    requires IsRest(last, middle) && IsRest(middle, first)
    ensures IsRest(last, first) && |last| <= |middle| <= |first|
  {
  }

  /** The next answer to come is an answer of those that were to come before. */
  lemma NextAnswer(urls: seq<PopResult>, rest: seq<PopResult>)
    requires IsRest(rest, urls) && rest != []
    ensures |rest| <= |urls| && rest[0] == urls[|urls| - |rest|]
  {
  }

  lemma RecordCountStep(urls: seq<PopResult>)
    requires urls != []
    ensures RecordCount(urls) == (if urls[0].PopRecord? then 1 else 0) + RecordCount(urls[1..])
  {
  }

  lemma IsRestAtOnce(urls: seq<PopResult>)
    ensures IsRest(urls, urls) && (urls != [] ==> IsRest(urls[1..], urls))
  {
  }

  const LIMIT := 500
  const MAX_REDIRECTS := 3

  datatype Record = Record(id: nat, redirects: int)

  datatype Phase = Resolving | Connecting | Reading

  datatype Request = Request(record: Record, phase: Phase)

  /**
   Where a record popped from the URL queue is: being handled, in a request, at a position of the
   overflow buffer (counted from the first record ever buffered), at a position of the hub's
   input, left alone as not needed, or given up after the hub refused it.
   */
  datatype Place =
    | InHand | InFlight(request: nat) | Buffered(position: nat) | Delivered(position: nat) | Unneeded | Dropped

  type Places = map<nat, Place>

  // ---------- Records are where their place says ----------

  ghost predicate FlightPlaced(requests: map<nat, Request>, place: Places) {
    && (forall r :: r in requests ==>
          requests[r].record.id in place && place[requests[r].record.id] == InFlight(r))
    && (forall id :: id in place && place[id].InFlight? ==>
          place[id].request in requests && requests[place[id].request].record.id == id)
  }

  ghost predicate BufferPlaced(buffer: seq<Record>, first: nat, place: Places) {
    && (forall i :: 0 <= i < |buffer| ==> buffer[i].id in place && place[buffer[i].id] == Buffered(first + i))
    && (forall id :: id in place && place[id].Buffered? ==>
          Buffers(buffer, first, place[id].position, id))
  }

  /** The buffer has record `id` at a position. */
  predicate Buffers(buffer: seq<Record>, first: nat, position: nat, id: nat) {
    first <= position < first + |buffer| && buffer[position - first].id == id
  }

  ghost predicate HubPlaced(hubLog: seq<nat>, place: Places) {
    && (forall i :: 0 <= i < |hubLog| ==> hubLog[i] in place && place[hubLog[i]] == Delivered(i))
    && (forall id :: id in place && place[id].Delivered? ==>
          place[id].position < |hubLog| && hubLog[place[id].position] == id)
  }

  ghost predicate HandPlaced(held: set<nat>, place: Places) {
    && held <= place.Keys
    && (forall id :: id in place ==> (place[id] == InHand <==> id in held))
  }

  /** Records are named 0, 1, 2 and so on. */
  ghost predicate Named(place: Places, count: nat) {
    forall id: nat :: id in place <==> id < count
  }

  ghost predicate AllPlaced(requests: map<nat, Request>, nextRequest: nat, buffer: seq<Record>, first: nat,
                            hubLog: seq<nat>, held: set<nat>, place: Places, count: nat) {
    && FlightPlaced(requests, place)
    && BufferPlaced(buffer, first, place)
    && HubPlaced(hubLog, place)
    && HandPlaced(held, place)
    && Named(place, count)
    && (forall r :: r in requests ==> r < nextRequest)
  }

  /** An answer of the hub about a record. */
  datatype Answer = Answer(id: nat, result: PushResult)

  predicate Accepted(answers: seq<Answer>, id: nat) {
    Answer(id, PushOk) in answers
  }

  predicate Refused(answers: seq<Answer>, id: nat) {
    Answer(id, PushWarn) in answers || Answer(id, PushError) in answers
  }

  /** A record is delivered or dropped by the hub's word only. */
  ghost predicate AllAnswered(place: Places, answers: seq<Answer>) {
    && (forall id :: id in place && place[id].Delivered? ==> Accepted(answers, id))
    && (forall id :: id in place && place[id].Dropped? ==> Refused(answers, id))
  }

  lemma AnsweredMove(place: Places, answers: seq<Answer>, id: nat, where: Place)
    requires AllAnswered(place, answers)
    requires (where.Delivered? ==> Accepted(answers, id)) && (where.Dropped? ==> Refused(answers, id))
    ensures AllAnswered(place[id := where], answers)
  {
    hide Accepted, Refused;
  }

  lemma AnsweredMore(place: Places, answers: seq<Answer>, a: Answer)
    requires AllAnswered(place, answers)
    ensures AllAnswered(place, answers + [a])
    ensures a.result == PushOk ==> Accepted(answers + [a], a.id)
    ensures a.result == PushWarn || a.result == PushError ==> Refused(answers + [a], a.id)
  {
    assert forall b <- answers :: b in answers + [a];
    assert a in answers + [a];
  }

  predicate Final(p: Place) {
    p.Delivered? || p.Unneeded? || p.Dropped?
  }

  /** Where a record has come to its end, it stays. */
  ghost predicate Settles(before: Places, after: Places) {
    forall id :: id in before && Final(before[id]) ==> id in after && after[id] == before[id]
  }

  lemma SettlesMove(place: Places, id: nat, where: Place)
    requires id in place ==> !Final(place[id])
    ensures Settles(place, place[id := where])
  {
    hide Final;
  }

  lemma SettlesAtOnce(place: Places)
    ensures Settles(place, place)
  {
  }

  lemma SettlesChain(before: Places, middle: Places, after: Places)
    requires Settles(before, middle) && Settles(middle, after)
    ensures Settles(before, after)
  {
    hide Final;
  }

  // ---------- What a run leaves behind ----------

  /** What is to be seen of a crawler. */
  datatype Trace = Trace(urls: seq<PopResult>, nextRecord: nat, hubLog: seq<nat>, answers: seq<Answer>,
                         place: Places, start: map<nat, int>, globalStop: bool, pauseCrawl: bool,
                         requests: map<nat, Request>, nextRequest: nat,
                         recordBuffer: seq<Record>, submits: map<nat, nat>)

  /**
   Nothing is forgotten: the URL queue was asked in order and each record it gave got a name, what was
   popped stays known, what was delivered, dropped or not needed stays so, a stop is for good, and
   a request that is over stays over.
   */
  ghost predicate Follows(before: Trace, after: Trace) {
    && IsRest(after.urls, before.urls)
    && after.nextRecord + RecordCount(after.urls) == before.nextRecord + RecordCount(before.urls)
    && before.hubLog <= after.hubLog
    && before.answers <= after.answers
    && Settles(before.place, after.place)
    && (forall id :: id in before.start ==> id in after.start && after.start[id] == before.start[id])
    && (before.globalStop ==> after.globalStop)
    && before.nextRequest <= after.nextRequest
    && (forall r :: r in after.requests ==> r in before.requests || before.nextRequest <= r)
  }

  lemma FollowsChain(first: Trace, middle: Trace, last: Trace)
    requires Follows(first, middle) && Follows(middle, last)
    ensures Follows(first, last)
  {
    hide RecordCount, Settles, IsRest;
    IsRestChain(first.urls, middle.urls, last.urls);
    SettlesChain(first.place, middle.place, last.place);
  }

  lemma FollowsAtOnce(t: Trace)
    ensures Follows(t, t)
  {
    hide RecordCount;
    IsRestAtOnce(t.urls);
    SettlesAtOnce(t.place);
  }

  /** An answer of the hub is noted. */
  lemma FollowsAnswer(before: Trace, answer: Answer)
    ensures Follows(before, before.(answers := before.answers + [answer]))
  {
    FollowsAtOnce(before);
  }

  lemma FollowsStop(before: Trace, stop: bool)
    requires before.globalStop ==> stop
    ensures Follows(before, before.(globalStop := stop))
  {
    FollowsAtOnce(before);
  }

  lemma FollowsPause(first: Trace, before: Trace, pause: bool)
    requires Follows(first, before)
    ensures Follows(first, before.(pauseCrawl := pause))
  {
    hide RecordCount, Settles, IsRest;
  }

  /** A record in no final place moves, and the hub may have got it. */
  lemma FollowsMove(before: Trace, after: Trace, id: nat, where: Place)
    requires id in before.place ==> !Final(before.place[id])
    requires before.hubLog <= after.hubLog
    requires after == before.(place := before.place[id := where], hubLog := after.hubLog,
                              recordBuffer := after.recordBuffer)
    ensures Follows(before, after)
  {
    hide RecordCount, Settles;
    IsRestAtOnce(before.urls);
    SettlesMove(before.place, id, where);
  }

  lemma FollowsTake(before: Trace, after: Trace, where: Place)
    requires before.urls != [] && before.urls[0].PopRecord?
    requires before.nextRecord !in before.place && before.nextRecord !in before.start
    requires after == before.(urls := before.urls[1..], nextRecord := before.nextRecord + 1,
                              place := before.place[before.nextRecord := where],
                              start := before.start[before.nextRecord := before.urls[0].redirects],
                              submits := after.submits)
    ensures Follows(before, after)
  {
    hide Settles;
    IsRestAtOnce(before.urls);
    SettlesMove(before.place, before.nextRecord, where);
  }

  lemma FollowsOpen(before: Trace, after: Trace, rec: Record)
    requires rec.id in before.place && !Final(before.place[rec.id])
    requires after == before.(place := before.place[rec.id := InFlight(before.nextRequest)],
                              requests := before.requests[before.nextRequest := Request(rec, Resolving)],
                              nextRequest := before.nextRequest + 1, submits := after.submits)
    ensures Follows(before, after)
  {
    hide RecordCount, Settles;
    IsRestAtOnce(before.urls);
    SettlesMove(before.place, rec.id, InFlight(before.nextRequest));
  }

  lemma FollowsClose(before: Trace, req: nat, id: nat)
    requires id in before.place && !Final(before.place[id])
    ensures Follows(before, before.(place := before.place[id := InHand], requests := before.requests - {req}))
  {
    hide RecordCount, Settles;
    IsRestAtOnce(before.urls);
    SettlesMove(before.place, id, InHand);
  }

  lemma FollowsPhase(before: Trace, req: nat, request: Request)
    requires req in before.requests
    ensures Follows(before, before.(requests := before.requests[req := request]))
  {
    hide RecordCount, Settles;
    IsRestAtOnce(before.urls);
    SettlesAtOnce(before.place);
  }

  lemma FollowsMeans(before: Trace, after: Trace)
    requires Follows(before, after)
    ensures IsRest(after.urls, before.urls) && before.hubLog <= after.hubLog && before.answers <= after.answers
    ensures before.globalStop ==> after.globalStop
    ensures forall r :: r in after.requests ==> r in before.requests || before.nextRequest <= r
    ensures Settles(before.place, after.place)
  {
    hide RecordCount, Settles;
  }

  /** Nested work adds to the buffer and to the records, but submits no known record again, except perhaps some. */
  ghost predicate SparesIn(before: Trace, after: Trace, resubmitted: set<nat>) {
    && before.recordBuffer <= after.recordBuffer
    && (forall id :: id in before.submits ==>
          id in after.submits && after.submits[id] == before.submits[id] + if id in resubmitted then 1 else 0)
  }

  lemma SparesChain(first: Trace, middle: Trace, last: Trace, ids: set<nat>, more: set<nat>)
    requires SparesIn(first, middle, ids) && SparesIn(middle, last, more) && ids !! more
    ensures SparesIn(first, last, ids + more)
    ensures more == {} ==> SparesIn(first, last, ids)
  {
  }

  lemma SparesAtOnce(before: Trace, after: Trace)
    requires before.recordBuffer <= after.recordBuffer && after.submits == before.submits
    ensures SparesIn(before, after, {})
  {
  }

  lemma SparesOne(before: Trace, after: Trace, id: nat)
    requires id in before.submits && after.submits == before.submits[id := before.submits[id] + 1]
    requires after.recordBuffer == before.recordBuffer
    ensures SparesIn(before, after, {id})
  {
  }

  /** The URL queue was asked; if it gave a record, that was submitted exactly if it is to be crawled. */
  ghost predicate FetchedIn(before: Trace, after: Trace) {
    && |after.urls| < |before.urls|
    && (before.urls[0].PopRecord? ==>
          && before.nextRecord in after.submits
          && after.submits[before.nextRecord] == if NeedCrawl(before.urls[0].facts).0 then 1 else 0)
  }

  lemma FetchedLater(before: Trace, middle: Trace, after: Trace)
    requires FetchedIn(before, middle) && Follows(middle, after) && SparesIn(middle, after, {})
    ensures FetchedIn(before, after)
  {
    FollowsMeans(middle, after);
  }

  lemma FetchedAsWell(before: Trace, pushed: Trace, after: Trace)
    requires pushed.urls == before.urls && pushed.nextRecord == before.nextRecord
    ensures FetchedIn(before, after) == FetchedIn(pushed, after)
  {
    hide NeedCrawl;
  }

  lemma FetchedGarbage(before: Trace, after: Trace)
    requires before.urls != [] && !before.urls[0].PopRecord? && after.urls == before.urls[1..]
    ensures FetchedIn(before, after)
  {
  }

  /** One more round of fetching. */
  lemma FetchedSoFar(first: Trace, before: Trace, after: Trace, isFirst: bool)
    requires Follows(first, before) && Follows(before, after)
    requires SparesIn(first, before, {}) && SparesIn(before, after, {})
    requires FetchedIn(before, after)
    requires isFirst ==> before.urls == first.urls && before.nextRecord == first.nextRecord
    requires !isFirst ==> FetchedIn(first, before)
    ensures Follows(first, after) && SparesIn(first, after, {}) && FetchedIn(first, after)
  {
    hide Follows, SparesIn;
    FollowsChain(first, before, after);
    SparesChain(first, before, after, {}, {});
    if !isFirst {
      FetchedLater(first, before, after);
    }
  }

  /** The record that the URL queue gave is not needed: that is noted, and nothing else happens. */
  ghost predicate ForgottenIn(before: Trace, after: Trace) {
    && after.place == before.place[before.nextRecord := Unneeded]
    && after.hubLog == before.hubLog && after.answers == before.answers
    && after.recordBuffer == before.recordBuffer && after.requests == before.requests
  }

  lemma Forgotten(before: Trace, after: Trace)
    requires after.place == before.place[before.nextRecord := InHand][before.nextRecord := Unneeded]
    requires after.hubLog == before.hubLog && after.answers == before.answers
    requires after.recordBuffer == before.recordBuffer && after.requests == before.requests
    ensures ForgottenIn(before, after)
  {
  }

  /** The record that the URL queue gave is the next the hub is asked about; it gets it, or the buffer does. */
  ghost predicate PassedOnIn(before: Trace, after: Trace)
    requires before.urls != [] && before.urls[0].PopRecord?
  {
    && |before.answers| < |after.answers| && after.answers[|before.answers|].id == before.nextRecord
    && if after.answers[|before.answers|].result == PushOk then before.hubLog + [before.nextRecord] <= after.hubLog
       else after.recordBuffer == before.recordBuffer + [Record(before.nextRecord, before.urls[0].redirects)]
  }

  lemma PassedOn(before: Trace, taken: Trace, after: Trace, rec: Record, size: int)
    requires before.urls != [] && before.urls[0].PopRecord?
    requires rec == Record(before.nextRecord, before.urls[0].redirects) && PushedIn(taken, after, rec, size)
    requires taken.answers == before.answers && taken.hubLog == before.hubLog
    requires taken.recordBuffer == before.recordBuffer
    ensures PassedOnIn(before, after)
  {
    hide FetchedIn;
  }

  /** A record was named and not submitted yet. */
  lemma SparesAll(before: Trace, taken: Trace)
    requires before.nextRecord !in before.submits && taken.submits == before.submits[before.nextRecord := 0]
    requires taken.recordBuffer == before.recordBuffer
    ensures SparesIn(before, taken, {})
  {
  }

  /** The record that the URL queue gave was submitted if it is to be crawled, and the other records were not. */
  lemma FetchedNew(before: Trace, taken: Trace, after: Trace, rec: Record, need: bool)
    requires before.urls != [] && before.urls[0].PopRecord? && NeedCrawl(before.urls[0].facts).0 == need
    requires rec.id == before.nextRecord && rec.id !in before.submits && taken.urls == before.urls[1..]
    requires taken.submits == before.submits[before.nextRecord := 0] && taken.recordBuffer == before.recordBuffer
    requires Follows(taken, after) && SparesIn(taken, after, if need then {rec.id} else {})
    ensures SparesIn(before, after, {}) && FetchedIn(before, after) && |after.urls| < |before.urls|
  {
    hide NeedCrawl;
    FollowsMeans(taken, after);
  }

  /**
   A record was pushed: the hub was asked about it next. If it accepted, the record is next in its
   input and more is fetched if a buffer of the given size has room; if not, the record waits in the
   buffer and the crawl is paused.
   */
  ghost predicate PushedIn(before: Trace, after: Trace, rec: Record, size: int) {
    && |before.answers| < |after.answers| && after.answers[|before.answers|].id == rec.id
    && if after.answers[|before.answers|].result == PushOk then
         && before.hubLog + [rec.id] <= after.hubLog
         && (!after.globalStop && |before.recordBuffer| < size && before.urls != [] ==> FetchedIn(before, after))
       else
         && after.pauseCrawl && after.recordBuffer == before.recordBuffer + [rec]
         && after.hubLog == before.hubLog && after.urls == before.urls && after.requests.Keys <= before.requests.Keys
  }

  /** The hub accepted the record, it was delivered, and records were fetched. */
  lemma PushAccepted(before: Trace, delivered: Trace, after: Trace, rec: Record, size: int)
    requires delivered == before.(answers := before.answers + [Answer(rec.id, PushOk)], pauseCrawl := false,
                                  hubLog := before.hubLog + [rec.id], place := delivered.place)
    requires Follows(delivered, after)
    requires !delivered.globalStop && |delivered.recordBuffer| < size && delivered.urls != [] ==>
               FetchedIn(delivered, after)
    ensures PushedIn(before, after, rec, size)
  {
    FollowsMeans(delivered, after);
    assert after.answers[|before.answers|] == delivered.answers[|before.answers|];
  }

  /** It did not, and the record was kept. */
  lemma PushRefused(before: Trace, after: Trace, rec: Record, result: PushResult, size: int)
    requires result != PushOk
    requires after == before.(answers := before.answers + [Answer(rec.id, result)], pauseCrawl := true,
                              recordBuffer := before.recordBuffer + [rec], place := after.place)
    ensures PushedIn(before, after, rec, size)
  {
  }

  /** A push is one from before its request was closed, too. */
  lemma PushedAsWell(before: Trace, closed: Trace, after: Trace, rec: Record, size: int)
    requires PushedIn(closed, after, rec, size) && closed.requests.Keys <= before.requests.Keys
    requires closed == before.(requests := closed.requests, place := closed.place, globalStop := closed.globalStop)
    ensures PushedIn(before, after, rec, size)
  {
  }

  // ---------- Redirects ----------

  /** A permanent or temporary redirect, and not yet the fifth in a row. */
  predicate Redirects(rec: Record, outcome: Outcome) {
    outcome.Response? && outcome.code in {301, 302} && rec.redirects < 4
  }

  ghost predicate MovesOnIn(before: Trace, after: Trace, rec: Record, outcome: Outcome, size: int) {
    if Redirects(rec, outcome) && outcome.validLocation then SparesIn(before, after, {rec.id})
    else
      && SparesIn(before, after, {})
      && PushedIn(before, after, if Redirects(rec, outcome) then rec.(redirects := rec.redirects + 1) else rec, size)
  }

  lemma Resubmitted(before: Trace, counted: Trace, after: Trace, rec: Record, outcome: Outcome, size: int)
    requires outcome.Response? && (outcome.code == 301 || outcome.code == 302) && !(rec.redirects > 3)
    requires outcome.validLocation
    requires counted.recordBuffer == before.recordBuffer && counted.submits == before.submits
    requires SparesIn(counted, after, {rec.id})
    ensures MovesOnIn(before, after, rec, outcome, size)
  {
  }

  /** A fetch that failed is pushed as it is. */
  lemma FailureIsPushed(before: Trace, after: Trace, rec: Record, why: ErrorCode, size: int)
    ensures MovesOnIn(before, after, rec, Error(why), size) <==>
            SparesIn(before, after, {}) && PushedIn(before, after, rec, size)
  {
  }

  lemma PushedOn(before: Trace, counted: Trace, after: Trace, rec: Record, outcome: Outcome, size: int)
    requires counted.requests.Keys <= before.requests.Keys
    requires counted == before.(requests := counted.requests, place := counted.place, globalStop := counted.globalStop)
    requires SparesIn(counted, after, {})
    requires
      if outcome.Response? && (outcome.code == 301 || outcome.code == 302) && !(rec.redirects > 3) then
        !outcome.validLocation && PushedIn(counted, after, rec.(redirects := rec.redirects + 1), size)
      else PushedIn(counted, after, rec, size)
    ensures MovesOnIn(before, after, rec, outcome, size)
  {
    hide PushedIn;
    PushedAsWell(before, counted, after, if Redirects(rec, outcome) then rec.(redirects := rec.redirects + 1) else rec,
                 size);
  }

  /** How often a record may be submitted. */
  function Budget(start: int): nat {
    if start > MAX_REDIRECTS then 1 else MAX_REDIRECTS + 2 - start
  }

  /** A submitted record: once for itself and once for each redirect, within its budget. */
  predicate InOrder(rec: Record, submits: map<nat, nat>, start: map<nat, int>) {
    && rec.id in submits && rec.id in start
    && submits[rec.id] == 1 + rec.redirects - start[rec.id]
    && 1 <= submits[rec.id]
  }

  ghost predicate AllInOrder(requests: map<nat, Request>, submits: map<nat, nat>, start: map<nat, int>) {
    forall r :: r in requests ==> InOrder(requests[r].record, submits, start)
  }

  ghost predicate AllWithinBudget(submits: map<nat, nat>, start: map<nat, int>) {
    submits.Keys == start.Keys && forall id :: id in submits ==> submits[id] <= Budget(start[id])
  }

  ghost predicate AllCounted(place: Places, start: map<nat, int>, submits: map<nat, nat>, requests: map<nat, Request>) {
    && place.Keys == start.Keys == submits.Keys
    && AllWithinBudget(submits, start)
    && AllInOrder(requests, submits, start)
  }

  lemma AllCountedOpens(place: Places, start: map<nat, int>, submits: map<nat, nat>, requests: map<nat, Request>,
                        rec: Record, req: nat)
    requires AllCounted(place, start, submits, requests) && FlightPlaced(requests, place)
    requires req !in requests && rec.id in place && !place[rec.id].InFlight?
    requires submits[rec.id] == rec.redirects - start[rec.id] && submits[rec.id] < Budget(start[rec.id])
    ensures AllCounted(place[rec.id := InFlight(req)], start, submits[rec.id := submits[rec.id] + 1],
                       requests[req := Request(rec, Resolving)])
  {
    hide FlightPlaced, AllWithinBudget, AllInOrder, Budget;
    OrderOfOpened(requests, place, submits, start, rec, req);
    KeysKept(place, rec.id, InFlight(req));
    KeysKept(submits, rec.id, submits[rec.id] + 1);
  }

  lemma AllCountedTakes(place: Places, start: map<nat, int>, submits: map<nat, nat>, requests: map<nat, Request>,
                        id: nat, redirects: int)
    requires AllCounted(place, start, submits, requests) && FlightPlaced(requests, place) && id !in place
    ensures id !in start && id !in submits
    ensures AllCounted(place[id := InHand], start[id := redirects], submits[id := 0], requests)
  {
    hide FlightPlaced, AllWithinBudget, AllInOrder, Budget;
    OrderOfNew(requests, place, submits, start, id, redirects);
  }

  lemma BudgetIsPositive(start: int)
    ensures 0 < Budget(start)
  {
  }

  lemma OrderOfNew(requests: map<nat, Request>, place: Places, submits: map<nat, nat>, start: map<nat, int>,
                   id: nat, redirects: int)
    requires FlightPlaced(requests, place) && id !in place
    requires AllInOrder(requests, submits, start) && AllWithinBudget(submits, start)
    ensures AllInOrder(requests, submits[id := 0], start[id := redirects])
    ensures AllWithinBudget(submits[id := 0], start[id := redirects])
  {
  }

  lemma OrderOfOpened(requests: map<nat, Request>, place: Places, submits: map<nat, nat>, start: map<nat, int>,
                      rec: Record, req: nat)
    requires FlightPlaced(requests, place) && req !in requests && (rec.id in place ==> !place[rec.id].InFlight?)
    requires AllInOrder(requests, submits, start) && AllWithinBudget(submits, start)
    requires rec.id in submits && submits[rec.id] == rec.redirects - start[rec.id]
    requires submits[rec.id] < Budget(start[rec.id])
    ensures AllInOrder(requests[req := Request(rec, Resolving)], submits[rec.id := submits[rec.id] + 1], start)
    ensures AllWithinBudget(submits[rec.id := submits[rec.id] + 1], start)
  {
  }

  lemma OrderOfClosed(requests: map<nat, Request>, submits: map<nat, nat>, start: map<nat, int>, req: nat)
    requires AllInOrder(requests, submits, start) && req in requests
    ensures AllInOrder(requests - {req}, submits, start) && InOrder(requests[req].record, submits, start)
  {
  }

  lemma OrderOfChanged(requests: map<nat, Request>, submits: map<nat, nat>, start: map<nat, int>,
                       req: nat, phase: Phase)
    requires AllInOrder(requests, submits, start) && req in requests
    ensures AllInOrder(requests[req := requests[req].(phase := phase)], submits, start)
  {
  }

  // ---------- Records move ----------

  lemma FlightUnaffected(requests: map<nat, Request>, place: Places, id: nat, where: Place)
    requires FlightPlaced(requests, place) && (id in place ==> !place[id].InFlight?) && !where.InFlight?
    ensures FlightPlaced(requests, place[id := where])
  {
  }

  lemma BufferUnaffected(buffer: seq<Record>, first: nat, place: Places, id: nat, where: Place)
    requires BufferPlaced(buffer, first, place) && (id in place ==> !place[id].Buffered?) && !where.Buffered?
    ensures BufferPlaced(buffer, first, place[id := where])
  {
    hide Buffers;
  }

  lemma HubUnaffected(hubLog: seq<nat>, place: Places, id: nat, where: Place)
    requires HubPlaced(hubLog, place) && (id in place ==> !place[id].Delivered?) && !where.Delivered?
    ensures HubPlaced(hubLog, place[id := where])
  {
  }

  lemma RequestOpens(requests: map<nat, Request>, place: Places, rec: Record, req: nat)
    requires FlightPlaced(requests, place) && req !in requests && (rec.id in place ==> !place[rec.id].InFlight?)
    ensures FlightPlaced(requests[req := Request(rec, Resolving)], place[rec.id := InFlight(req)])
  {
  }

  lemma AllPlacedOpens(requests: map<nat, Request>, nextRequest: nat, buffer: seq<Record>, first: nat,
                       hubLog: seq<nat>, place: Places, count: nat, rec: Record)
    requires AllPlaced(requests, nextRequest, buffer, first, hubLog, {rec.id}, place, count)
    ensures nextRequest !in requests && rec.id in place && place[rec.id] == InHand && FlightPlaced(requests, place)
    ensures AllPlaced(requests[nextRequest := Request(rec, Resolving)], nextRequest + 1, buffer, first,
                      hubLog, {}, place[rec.id := InFlight(nextRequest)], count)
  {
    hide FlightPlaced, BufferPlaced, HubPlaced, HandPlaced, Named;
    HandGives(place, rec.id, InFlight(nextRequest));
    NameKept(place, count, rec.id, InFlight(nextRequest));
    RequestOpens(requests, place, rec, nextRequest);
    BufferUnaffected(buffer, first, place, rec.id, InFlight(nextRequest));
    HubUnaffected(hubLog, place, rec.id, InFlight(nextRequest));
  }

  lemma AllPlacedTakes(requests: map<nat, Request>, nextRequest: nat, buffer: seq<Record>, first: nat,
                       hubLog: seq<nat>, place: Places, count: nat)
    requires AllPlaced(requests, nextRequest, buffer, first, hubLog, {}, place, count)
    ensures count !in place && FlightPlaced(requests, place)
    ensures AllPlaced(requests, nextRequest, buffer, first, hubLog, {count}, place[count := InHand], count + 1)
  {
    hide FlightPlaced, BufferPlaced, HubPlaced, HandPlaced, Named;
    NameGiven(place, count, InHand);
    FlightUnaffected(requests, place, count, InHand);
    BufferUnaffected(buffer, first, place, count, InHand);
    HubUnaffected(hubLog, place, count, InHand);
    HandTakes(place, count);
  }

  lemma RequestCloses(requests: map<nat, Request>, place: Places, req: nat)
    requires FlightPlaced(requests, place) && req in requests
    ensures var id := requests[req].record.id;
            && FlightPlaced(requests - {req}, place[id := InHand])
            && id in place && place[id] == InFlight(req)
  {
  }

  lemma RequestChanges(requests: map<nat, Request>, place: Places, req: nat, phase: Phase)
    requires FlightPlaced(requests, place) && req in requests
    ensures FlightPlaced(requests[req := requests[req].(phase := phase)], place)
  {
  }

  lemma BufferTakesLast(buffer: seq<Record>, first: nat, place: Places, rec: Record)
    requires BufferPlaced(buffer, first, place) && (rec.id in place ==> !place[rec.id].Buffered?)
    ensures BufferPlaced(buffer + [rec], first, place[rec.id := Buffered(first + |buffer|)])
  {
    BufferRecords(buffer, first, place, rec, buffer + [rec], place[rec.id := Buffered(first + |buffer|)]);
    BufferPositions(buffer, first, place, rec, buffer + [rec], place[rec.id := Buffered(first + |buffer|)]);
  }

  lemma BufferRecords(buffer: seq<Record>, first: nat, place: Places, rec: Record, after: seq<Record>, where: Places)
    requires BufferPlaced(buffer, first, place) && (rec.id in place ==> !place[rec.id].Buffered?)
    requires after == buffer + [rec] && where == place[rec.id := Buffered(first + |buffer|)]
    ensures forall i :: 0 <= i < |after| ==> after[i].id in where && where[after[i].id] == Buffered(first + i)
  {
    forall i | 0 <= i < |after|
      ensures after[i].id in where && where[after[i].id] == Buffered(first + i)
    {
      if i < |buffer| {
        assert after[i] == buffer[i];
      }
    }
  }

  lemma BufferPositions(buffer: seq<Record>, first: nat, place: Places, rec: Record, after: seq<Record>, where: Places)
    requires BufferPlaced(buffer, first, place)
    requires after == buffer + [rec] && where == place[rec.id := Buffered(first + |buffer|)]
    ensures forall id :: id in where && where[id].Buffered? ==> Buffers(after, first, where[id].position, id)
  {
    forall id | id in where && where[id].Buffered?
      ensures Buffers(after, first, where[id].position, id)
    {
      if id != rec.id {
        var k := place[id].position - first;
        assert after[k] == buffer[k];
      }
    }
  }

  lemma OneMore<K, V>(m: map<K, V>, k: K, v: V)
    requires k !in m
    ensures |m[k := v]| == |m| + 1
  {
    assert m[k := v].Keys == m.Keys + {k};
  }

  lemma KeysKept<K, V>(m: map<K, V>, k: K, v: V)
    requires k in m
    ensures m[k := v].Keys == m.Keys
  {
  }

  lemma OneLess<K, V>(m: map<K, V>, k: K)
    requires k in m
    ensures |m - {k}| == |m| - 1
  {
    assert m.Keys == (m - {k}).Keys + {k};
  }

  lemma BufferLosesFirst(buffer: seq<Record>, first: nat, place: Places)
    requires BufferPlaced(buffer, first, place) && buffer != []
    ensures BufferPlaced(buffer[1..], first + 1, place[buffer[0].id := InHand])
    ensures buffer[0].id in place && place[buffer[0].id].Buffered?
  {
    var id := buffer[0].id;
    forall i | 0 <= i < |buffer[1..]|
      ensures buffer[1..][i].id != id
    {
      assert place[buffer[1 + i].id] == Buffered(first + (1 + i));
      assert place[buffer[0].id] == Buffered(first + 0);
    }
  }

  lemma HubTakes(hubLog: seq<nat>, place: Places, id: nat)
    requires HubPlaced(hubLog, place) && (id in place ==> !place[id].Delivered?)
    ensures HubPlaced(hubLog + [id], place[id := Delivered(|hubLog|)])
  {
  }

  lemma HandTakes(place: Places, id: nat)
    requires HandPlaced({}, place)
    ensures HandPlaced({id}, place[id := InHand])
  {
  }

  lemma HandGives(place: Places, id: nat, where: Place)
    requires HandPlaced({id}, place) && where != InHand
    ensures HandPlaced({}, place[id := where]) && id in place && place[id] == InHand
  {
  }

  lemma NameKept(place: Places, count: nat, id: nat, where: Place)
    requires Named(place, count) && id in place
    ensures Named(place[id := where], count)
  {
  }

  lemma NameGiven(place: Places, count: nat, where: Place)
    requires Named(place, count)
    ensures Named(place[count := where], count + 1) && count !in place
  {
  }

  /** An event of the loop. */
  datatype Event = Timer | Resolved(request: nat, status: int) | Connected(request: nat, error: bool)
                 | Closed(request: nat, outcome: Outcome) | Expired(request: nat)

  class QCrawler {
    const multiple: int
    const recordBufSize: int

    var globalStop: bool
    var pauseCrawl: bool
    var recordBuffer: seq<Record>
    var httpConnections: int
    var continuingDnsErrors: int

    var requests: map<nat, Request>  // the requests that the loop and the resolver know
    var nextRequest: nat
    var nextRecord: nat              // records are named in the order they are popped
    var urls: seq<PopResult>         // what the URL queue will answer

    ghost var place: map<nat, Place>  // of every record popped so far
    ghost var start: map<nat, int>    // its redirect count when it was popped
    ghost var submits: map<nat, nat>  // how often it was submitted
    ghost var hubLog: seq<nat>        // the records accepted by the hub, in order
    ghost var unbuffered: nat         // how many records have left the buffer
    ghost var answers: seq<Answer>    // everything the hub has answered

    // ---------- What holds throughout ----------

    /** Each record is where its place says, and nowhere else; those `held` are in hand. */
    ghost predicate Placed(held: set<nat>)
      reads `requests, `place, `recordBuffer, `unbuffered, `hubLog, `nextRecord, `nextRequest
    {
      AllPlaced(requests, nextRequest, recordBuffer, unbuffered, hubLog, held, place, nextRecord)
    }

    /** Submissions are counted by redirects, and the redirects run out. */
    ghost predicate Counted()
      reads `place, `start, `submits, `requests
    {
      AllCounted(place, start, submits, requests)
    }

    /** The connection limit, and what the buffer and the connections can hold together. */
    ghost predicate Limits()
      reads `httpConnections, `requests, `recordBuffer
    {
      && 1 <= multiple <= recordBufSize
      && httpConnections == |requests| <= multiple
      && Load() <= recordBufSize + multiple - 1
    }

    function Load(): int
      reads `httpConnections, `recordBuffer
    {
      |recordBuffer| + httpConnections
    }

    /** What became of a record is what the hub answered. */
    ghost predicate Answered()
      reads `place, `answers
    {
      AllAnswered(place, answers)
    }

    ghost predicate Sound(held: set<nat>)
      reads `requests, `place, `recordBuffer, `unbuffered, `hubLog, `nextRecord, `nextRequest,
            `start, `submits, `httpConnections, `answers
    {
      Placed(held) && Counted() && Limits() && Answered()
    }

    ghost function Now(): Trace
      reads `urls, `nextRecord, `hubLog, `answers, `start, `place, `globalStop, `pauseCrawl, `requests, `nextRequest,
            `recordBuffer, `submits
    {
      Trace(urls, nextRecord, hubLog, answers, place, start, globalStop, pauseCrawl, requests, nextRequest,
            recordBuffer, submits)
    }

    twostate predicate Later()
      reads `urls, `nextRecord, `hubLog, `answers, `start, `place, `globalStop, `pauseCrawl, `requests, `nextRequest,
            `recordBuffer, `submits
    {
      Follows(old(Now()), Now())
    }

    twostate predicate Spares(resubmitted: set<nat>)
      reads `urls, `nextRecord, `hubLog, `answers, `start, `place, `globalStop, `pauseCrawl, `requests, `nextRequest,
            `recordBuffer, `submits
    {
      SparesIn(old(Now()), Now(), resubmitted)
    }

    twostate predicate Fetched()
      reads `urls, `nextRecord, `hubLog, `answers, `start, `place, `globalStop, `pauseCrawl, `requests, `nextRequest,
            `recordBuffer, `submits
    {
      FetchedIn(old(Now()), Now())
    }

    twostate predicate Pushed(rec: Record)
      reads `urls, `nextRecord, `hubLog, `answers, `start, `place, `globalStop, `pauseCrawl, `requests, `nextRequest,
            `recordBuffer, `submits
    {
      PushedIn(old(Now()), Now(), rec, recordBufSize)
    }

    constructor (multiple: int, recordBufSize: int, urls: seq<PopResult>)
      requires 1 <= multiple <= recordBufSize
      ensures Sound({})
      ensures this.multiple == multiple && this.recordBufSize == recordBufSize && this.urls == urls
      ensures place == map[]
    {
      this.multiple, this.recordBufSize, this.urls := multiple, recordBufSize, urls;
      globalStop, pauseCrawl := false, false;
      recordBuffer, requests := [], map[];
      httpConnections, continuingDnsErrors, nextRequest, nextRecord := 0, 0, 0, 0;
      place, start, submits, hubLog, unbuffered, answers := map[], map[], map[], [], 0, [];
      new;
      assert FlightPlaced(requests, place) && BufferPlaced([], 0, place) && HubPlaced([], place);
      assert HandPlaced({}, place) && Named(place, 0);
    }

    /** A record in hand that may be submitted. */
    ghost predicate Ready(rec: Record)
      reads `submits, `start
    {
      && rec.id in submits && rec.id in start
      && submits[rec.id] == rec.redirects - start[rec.id]
      && submits[rec.id] < Budget(start[rec.id])
    }

    // ---------- Moving one record ----------

    /** A record comes out of the URL queue. */
    method TakeRecord() returns (rec: Record)
      requires Sound({}) && urls != [] && urls[0].PopRecord?
      modifies `urls, `nextRecord, `place, `start, `submits
      ensures Sound({rec.id}) && Ready(rec) && urls == old(urls)[1..] && nextRecord == old(nextRecord) + 1
      ensures rec == Record(old(nextRecord), old(urls)[0].redirects) && place == old(place)[rec.id := InHand]
      ensures rec.id !in old(place) && rec.id !in old(start) && start == old(start)[rec.id := rec.redirects]
      ensures rec.id !in old(submits) && submits == old(submits)[rec.id := 0]
    {
      hide AllPlaced, FlightPlaced, AllCounted, Budget, AllAnswered;
      var redirects := urls[0].redirects;
      rec := Record(nextRecord, redirects);
      AllPlacedTakes(requests, nextRequest, recordBuffer, unbuffered, hubLog, place, nextRecord);
      AllCountedTakes(place, start, submits, requests, rec.id, redirects);
      BudgetIsPositive(redirects);
      AnsweredMove(place, answers, rec.id, InHand);
      urls := urls[1..];
      nextRecord := nextRecord + 1;
      place, start, submits := place[rec.id := InHand], start[rec.id := redirects], submits[rec.id := 0];
    }

    /** A record in hand becomes a request. */
    method OpenRequest(rec: Record) returns (req: nat)
      requires Sound({rec.id}) && Ready(rec)
      requires httpConnections < multiple && Load() <= recordBufSize + multiple - 2
      modifies `httpConnections, `requests, `nextRequest, `place, `submits
      ensures Sound({})
      ensures req == old(nextRequest) && requests == old(requests)[req := Request(rec, Resolving)]
      ensures nextRequest == old(nextRequest) + 1
      ensures rec.id in old(place) && old(place)[rec.id] == InHand && place == old(place)[rec.id := InFlight(req)]
      ensures submits == old(submits)[rec.id := old(submits)[rec.id] + 1]
    {
      hide AllPlaced, FlightPlaced, AllCounted, Budget, AllAnswered;
      AllPlacedOpens(requests, nextRequest, recordBuffer, unbuffered, hubLog, place, nextRecord, rec);
      AllCountedOpens(place, start, submits, requests, rec, nextRequest);
      AnsweredMove(place, answers, rec.id, InFlight(nextRequest));
      OneMore(requests, nextRequest, Request(rec, Resolving));
      req := nextRequest;
      httpConnections, nextRequest := httpConnections + 1, nextRequest + 1;
      requests := requests[req := Request(rec, Resolving)];
      place, submits := place[rec.id := InFlight(req)], submits[rec.id := submits[rec.id] + 1];
    }

    /** A request ends, its record is in hand again. */
    method CloseRequest(req: nat) returns (rec: Record)
      requires Sound({}) && req in requests
      modifies `httpConnections, `requests, `place
      ensures rec == old(requests[req].record) && requests == old(requests) - {req} && req < nextRequest
      ensures Sound({rec.id})
      ensures rec.id in old(place) && old(place)[rec.id] == InFlight(req) && place == old(place)[rec.id := InHand]
      ensures httpConnections < multiple && Load() <= recordBufSize + multiple - 2
      ensures InOrder(rec, submits, start)
    {
      hide FlightPlaced, BufferPlaced, HubPlaced, HandPlaced, Named, AllInOrder, AllWithinBudget, InOrder,
        AllAnswered;
      httpConnections := httpConnections - 1;
      rec := requests[req].record;
      RequestCloses(requests, place, req);
      OrderOfClosed(requests, submits, start, req);
      NameKept(place, nextRecord, rec.id, InHand);
      BufferUnaffected(recordBuffer, unbuffered, place, rec.id, InHand);
      HubUnaffected(hubLog, place, rec.id, InHand);
      HandTakes(place, rec.id);
      OneLess(requests, req);
      AnsweredMove(place, answers, rec.id, InHand);
      requests := requests - {req};
      place := place[rec.id := InHand];
    }

    /** The hub accepts a record. */
    method Deliver(rec: Record)
      requires Sound({rec.id}) && Accepted(answers, rec.id)
      modifies `place, `hubLog
      ensures Sound({}) && Later() && hubLog == old(hubLog) + [rec.id]
    {
      hide FlightPlaced, BufferPlaced, HubPlaced, HandPlaced, Named, AllInOrder, AllWithinBudget, InOrder,
        AllAnswered, Follows;
      ghost var where := Delivered(|hubLog|);
      HandGives(place, rec.id, where);
      NameKept(place, nextRecord, rec.id, where);
      FlightUnaffected(requests, place, rec.id, where);
      BufferUnaffected(recordBuffer, unbuffered, place, rec.id, where);
      HubTakes(hubLog, place, rec.id);
      AnsweredMove(place, answers, rec.id, where);
      place := place[rec.id := where];
      hubLog := hubLog + [rec.id];
      assert Later() by { FollowsMove(old(Now()), Now(), rec.id, where); }
    }

    /** The overflow buffer takes a record. */
    method Keep(rec: Record)
      requires Sound({rec.id}) && Load() <= recordBufSize + multiple - 2
      modifies `place, `recordBuffer
      ensures Sound({}) && Later() && recordBuffer == old(recordBuffer) + [rec]
    {
      hide FlightPlaced, BufferPlaced, HubPlaced, HandPlaced, Named, AllInOrder, AllWithinBudget, InOrder,
        AllAnswered, Follows;
      ghost var where := Buffered(unbuffered + |recordBuffer|);
      HandGives(place, rec.id, where);
      NameKept(place, nextRecord, rec.id, where);
      FlightUnaffected(requests, place, rec.id, where);
      BufferTakesLast(recordBuffer, unbuffered, place, rec);
      HubUnaffected(hubLog, place, rec.id, where);
      AnsweredMove(place, answers, rec.id, where);
      recordBuffer := recordBuffer + [rec];
      place := place[rec.id := where];
      assert Later() by { FollowsMove(old(Now()), Now(), rec.id, where); }
    }

    /** A record is let go: not needed, or refused by the hub for good. */
    method LetGo(rec: Record, ghost where: Place)
      requires Sound({rec.id}) && (where == Unneeded || (where == Dropped && Refused(answers, rec.id)))
      modifies `place
      ensures Sound({}) && Later() && place == old(place)[rec.id := where]
    {
      hide FlightPlaced, BufferPlaced, HubPlaced, HandPlaced, Named, AllInOrder, AllWithinBudget, InOrder,
        AllAnswered, Follows;
      HandGives(place, rec.id, where);
      NameKept(place, nextRecord, rec.id, where);
      FlightUnaffected(requests, place, rec.id, where);
      BufferUnaffected(recordBuffer, unbuffered, place, rec.id, where);
      HubUnaffected(hubLog, place, rec.id, where);
      AnsweredMove(place, answers, rec.id, where);
      place := place[rec.id := where];
      assert Later() by { FollowsMove(old(Now()), Now(), rec.id, where); }
    }

    /** The first buffered record is taken in hand. */
    method PopBuffer() returns (rec: Record)
      requires Sound({}) && recordBuffer != []
      modifies `recordBuffer, `place, `unbuffered
      ensures rec == old(recordBuffer)[0] && recordBuffer == old(recordBuffer)[1..]
      ensures Sound({rec.id}) && Later()
    {
      hide FlightPlaced, BufferPlaced, HubPlaced, HandPlaced, Named, AllInOrder, AllWithinBudget, InOrder,
        AllAnswered, Follows;
      rec := recordBuffer[0];
      BufferLosesFirst(recordBuffer, unbuffered, place);
      NameKept(place, nextRecord, rec.id, InHand);
      FlightUnaffected(requests, place, rec.id, InHand);
      HubUnaffected(hubLog, place, rec.id, InHand);
      HandTakes(place, rec.id);
      AnsweredMove(place, answers, rec.id, InHand);
      recordBuffer := recordBuffer[1..];
      unbuffered := unbuffered + 1;
      place := place[rec.id := InHand];
      assert Later() by { FollowsMove(old(Now()), Now(), rec.id, InHand); }
    }

    method SetPhase(req: nat, phase: Phase)
      requires Sound({}) && req in requests
      modifies `requests
      ensures Sound({}) && Later()
      ensures requests == old(requests)[req := Request(old(requests[req].record), phase)]
    {
      hide FlightPlaced, BufferPlaced, HubPlaced, HandPlaced, Named, AllInOrder, AllWithinBudget, InOrder,
        AllAnswered, Follows;
      FollowsPhase(Now(), req, requests[req].(phase := phase));
      RequestChanges(requests, place, req, phase);
      OrderOfChanged(requests, submits, start, req, phase);
      requests := requests[req := requests[req].(phase := phase)];
    }

    /** Every popped record is in one place, and only there. */
    lemma InOnePlace(id: nat)
      requires Sound({}) && id < nextRecord
      ensures id in place
      ensures var flying := exists r :: r in requests && requests[r].record.id == id;
              var kept := exists i :: 0 <= i < |recordBuffer| && recordBuffer[i].id == id;
              var delivered := id in hubLog;
              match place[id]
              case InHand => false
              case InFlight(_) => flying && !kept && !delivered
              case Buffered(_) => kept && !flying && !delivered
              case Delivered(_) => delivered && !flying && !kept
              case _ => !flying && !kept && !delivered
      ensures forall i, j :: 0 <= i < j < |hubLog| ==> hubLog[i] != hubLog[j]
      ensures forall i, j :: 0 <= i < j < |recordBuffer| ==> recordBuffer[i].id != recordBuffer[j].id
      ensures forall q, r :: q in requests && r in requests && q != r ==> requests[q].record.id != requests[r].record.id
    {
      forall i, j | 0 <= i < j < |hubLog|
        ensures hubLog[i] != hubLog[j]
      {
        assert place[hubLog[i]] == Delivered(i) && place[hubLog[j]] == Delivered(j);
      }
      forall i, j | 0 <= i < j < |recordBuffer|
        ensures recordBuffer[i].id != recordBuffer[j].id
      {
        assert place[recordBuffer[i].id] == Buffered(unbuffered + i);
        assert place[recordBuffer[j].id] == Buffered(unbuffered + j);
      }
    }

    // ---------- Calls that nest ----------

    /** `push_nowait` to the hub, while `held` is in hand. */
    method HubPush(rec: Record, ghost held: set<nat>) returns (result: PushResult)
      requires Sound(held)
      modifies `answers
      ensures Sound(held) && answers == old(answers) + [Answer(rec.id, result)]
      ensures result == PushOk ==> Accepted(answers, rec.id)
      ensures result == PushWarn || result == PushError ==> Refused(answers, rec.id)
    {
      hide Placed, Counted, Limits, AllAnswered;
      result := *;
      AnsweredMore(place, answers, Answer(rec.id, result));
      answers := answers + [Answer(rec.id, result)];
    }

    /** `qcrawler_push_task`: a delivered record makes room for more, a refused one is buffered. */
    method PushTask(rec: Record)
      requires Sound({rec.id}) && Load() <= recordBufSize + multiple - 2 && httpConnections < multiple
      modifies this
      ensures Sound({}) && Later()
      ensures Spares({}) && Pushed(rec)
      decreases |urls|, 1
    {
      hide Placed, Counted, Limits, Answered, Follows, SparesIn, FetchedIn, PushedIn;
      var pushRet := HubPush(rec, {rec.id});
      ghost var asked := Now();
      assert Follows(old(Now()), asked) by { FollowsAnswer(old(Now()), Answer(rec.id, pushRet)); }
      if pushRet == PushOk {
        pauseCrawl := false;
        ghost var resumed := Now();
        assert Follows(old(Now()), resumed) by { FollowsPause(old(Now()), asked, false); }
        Deliver(rec);
        ghost var delivered := Now();
        FollowsChain(old(Now()), resumed, delivered);
        SparesAtOnce(old(Now()), delivered);
        ghost var rounds, outOfRecords := CycleFetchTask(LIMIT);
        FollowsChain(old(Now()), delivered, Now());
        SparesChain(old(Now()), delivered, Now(), {}, {});
        PushAccepted(old(Now()), delivered, Now(), rec, recordBufSize);
      } else {
        pauseCrawl := true;
        ghost var paused := Now();
        assert Follows(old(Now()), paused) by { FollowsPause(old(Now()), asked, true); }
        Keep(rec);
        FollowsChain(old(Now()), paused, Now());
        SparesAtOnce(old(Now()), Now());
        PushRefused(old(Now()), Now(), rec, pushRet, recordBufSize);
      }
    }

    /**
     `qcrawler_cycle_fetch_task_with_limit`: nothing is fetched after a stop, nor in a pause while the
     buffer holds records. Otherwise, with room and answers to come, something is; and the loop goes on
     until it is paused, the limit is reached, the buffer or the connections are full, or the URL
     queue is out of records.
     */
    method CycleFetchTask(limit: int) returns (ghost rounds: nat, ghost outOfRecords: bool)
      requires Sound({})
      modifies this
      ensures Sound({}) && Later()
      ensures Spares({})
      ensures old(globalStop) || (old(pauseCrawl) && old(recordBuffer) != []) ==>
                && urls == old(urls) && requests == old(requests)
                && recordBuffer == old(recordBuffer) && hubLog == old(hubLog)
      ensures !old(globalStop) && (!old(pauseCrawl) || old(recordBuffer) == []) && limit > 0
              && |old(recordBuffer)| < recordBufSize && old(httpConnections) < multiple && old(urls) != [] ==>
                Fetched()
      ensures !old(globalStop) ==>
                || pauseCrawl || rounds >= limit || |recordBuffer| >= recordBufSize || httpConnections >= multiple
                || urls == [] || outOfRecords
      ensures rounds <= |old(urls)| - |urls| && (limit >= 0 ==> rounds <= limit)
      ensures outOfRecords ==> |urls| < |old(urls)| && !old(urls)[|old(urls)| - |urls| - 1].PopRecord?
      decreases |urls|, 0
    {
      hide Placed, Counted, Limits, Answered, Follows, SparesIn, FetchedIn, NeedCrawl, ForgottenIn, PassedOnIn;
      FollowsAtOnce(Now());
      SparesAtOnce(Now(), Now());
      rounds, outOfRecords := 0, false;
      if globalStop {
        return;
      }
      if |recordBuffer| == 0 {
        pauseCrawl := false;
        assert Follows(old(Now()), Now()) by { FollowsPause(old(Now()), old(Now()), false); }
        SparesAtOnce(old(Now()), Now());
      }
      ghost var first := old(Now());
      var cnt := 0;
      while !pauseCrawl && cnt < limit && |recordBuffer| < recordBufSize && httpConnections < multiple && urls != []
        invariant Sound({}) && Follows(first, Now()) && SparesIn(first, Now(), {})
        invariant old(pauseCrawl) && old(recordBuffer) != [] ==>
                    pauseCrawl && urls == old(urls) && requests == old(requests)
                    && recordBuffer == old(recordBuffer) && hubLog == old(hubLog)
        invariant cnt == rounds <= |old(urls)| - |urls| && (limit >= 0 ==> cnt <= limit)
        invariant cnt == 0 ==>
                    && pauseCrawl == (old(pauseCrawl) && old(recordBuffer) != []) && urls == old(urls)
                    && nextRecord == old(nextRecord)
                    && recordBuffer == old(recordBuffer) && httpConnections == old(httpConnections)
        invariant cnt > 0 ==> FetchedIn(first, Now())
        decreases |urls|
      {
        var more := FetchRound(first, cnt == 0);
        cnt, rounds := cnt + 1, rounds + 1;
        if !more {
          outOfRecords := true;  // nothing to fetch, or an error
          break;
        }
      }
    }

    /** One round of the fetch loop, which began at `first`: whether there may be more to fetch. */
    method FetchRound(ghost first: Trace, ghost isFirst: bool) returns (more: bool)
      requires Sound({}) && urls != [] && httpConnections < multiple && |recordBuffer| < recordBufSize
      requires Follows(first, Now()) && SparesIn(first, Now(), {})
      requires isFirst ==> urls == first.urls && nextRecord == first.nextRecord
      requires !isFirst ==> FetchedIn(first, Now())
      modifies this
      ensures Sound({}) && Follows(first, Now()) && SparesIn(first, Now(), {}) && FetchedIn(first, Now())
      ensures |urls| < |old(urls)|
      ensures !more ==> |urls| < |first.urls| && !first.urls[|first.urls| - |urls| - 1].PopRecord?
      decreases |urls| - 1, 7
    {
      hide Placed, Counted, Limits, Answered, Follows, SparesIn, FetchedIn, NeedCrawl, ForgottenIn, PassedOnIn;
      ghost var before := Now();
      NextAnswer(first.urls, urls) by { FollowsMeans(first, before); }
      more := urls[0].PopRecord?;
      if more {
        FetchOne();
      } else {
        SkipAnswer();
        SparesAtOnce(before, Now());
        FetchedGarbage(before, Now());
      }
      FetchedSoFar(first, before, Now(), isFirst);
    }

    /** An answer of the URL queue that is no record. */
    method SkipAnswer()
      requires Sound({}) && urls != [] && !urls[0].PopRecord?
      modifies `urls
      ensures Sound({}) && Later() && urls == old(urls)[1..]
    {
      hide Placed, Counted, Limits, Answered, RecordCount, IsRest;
      IsRestAtOnce(urls);
      RecordCountStep(urls);
      SettlesAtOnce(place);
      urls := urls[1..];
    }

    /** One round of the fetch loop: the record is submitted, pushed as it is, or let go. */
    method FetchOne()
      requires Sound({}) && urls != [] && urls[0].PopRecord?
      requires httpConnections < multiple && |recordBuffer| < recordBufSize
      modifies this
      ensures Sound({}) && Later() && |urls| < |old(urls)|
      ensures Spares({}) && Fetched()
      ensures var (need, status) := NeedCrawl(old(urls)[0].facts);
              && (!need && status == NotNeed ==> ForgottenIn(old(Now()), Now()))
              && (!need && status != NotNeed ==> PassedOnIn(old(Now()), Now()))
      decreases |urls| - 1, 6
    {
      hide Placed, Counted, Answered, Ready, Follows, SparesIn, FetchedIn, PushedIn, NeedCrawl, ForgottenIn, PassedOnIn;
      var answer := urls[0];
      var rec := TakeRecord();
      ghost var taken := Now();
      SparesAll(old(Now()), taken);
      FollowsTake(old(Now()), taken, InHand);
      var (need, status) := NeedCrawl(answer.facts);
      if need {
        SubmitHttpFetch(rec);
      } else if status != NotNeed {
        PushTask(rec);
        PassedOn(old(Now()), taken, Now(), rec, recordBufSize);
      } else {
        LetGo(rec, Unneeded);
        SparesAtOnce(taken, Now());
        Forgotten(old(Now()), Now());
      }
      FollowsChain(old(Now()), taken, Now());
      FetchedNew(old(Now()), taken, Now(), rec, need);
    }

    /** `submit_http_fetch`: the resolver may know the answer at once. */
    method SubmitHttpFetch(rec: Record)
      requires Sound({rec.id}) && Ready(rec)
      requires httpConnections < multiple && Load() <= recordBufSize + multiple - 2
      modifies this
      ensures Sound({}) && Later()
      ensures Spares({rec.id})
      decreases |urls|, 4
    {
      hide Placed, Counted, Limits, Answered, Follows, SparesIn, PushedIn;
      var req := OpenRequest(rec);
      ghost var sent := Now();
      SparesOne(old(Now()), sent, rec.id);
      FollowsOpen(old(Now()), sent, rec);
      if * {
        var dnsStatus: int := *;
        HttpDnsCb(req, dnsStatus);
        FollowsChain(old(Now()), sent, Now());
        SparesChain(old(Now()), sent, Now(), {rec.id}, {});
      }
    }

    /** `http_dns_cb`: resolved requests connect, others are over. */
    method HttpDnsCb(req: nat, dnsStatus: int)
      requires Sound({}) && req in requests
      modifies this
      ensures Sound({}) && Later()
      ensures Spares({})
      ensures dnsStatus != 0 ==> req !in requests && Pushed(old(requests[req].record))
      ensures dnsStatus == 0 ==>
                || requests == old(requests)[req := Request(old(requests[req].record), Connecting)]
                || (req !in requests && Pushed(old(requests[req].record)))
      ensures dnsStatus < 0 && old(continuingDnsErrors) >= 2 ==> globalStop
      decreases |urls|, 3
    {
      hide Placed, Counted, Limits, Answered, Follows, SparesIn, PushedIn;
      if dnsStatus < 0 {
        HttpFetchCb(req, Error(DnsFatalError));
      } else if dnsStatus > 0 {
        HttpFetchCb(req, Error(DnsError));
      } else if * {
        HttpFetchCb(req, Error(SocketError));
      } else if * {
        HttpFetchCb(req, Error(ConnectError));
      } else {
        SetPhase(req, Connecting);
        SparesAtOnce(old(Now()), Now());
      }
    }

    /** A redirect to a valid address is submitted again; every other record is pushed, with the redirect counted. */
    twostate predicate MovesOn(rec: Record, outcome: Outcome)
      reads `urls, `nextRecord, `hubLog, `answers, `start, `place, `globalStop, `pauseCrawl, `requests, `nextRequest,
            `recordBuffer, `submits
    {
      MovesOnIn(old(Now()), Now(), rec, outcome, recordBufSize)
    }

    /** Three resolver failures in a row stop the crawler. */
    method CountDnsErrors(outcome: Outcome)
      modifies `continuingDnsErrors, `globalStop
      ensures continuingDnsErrors == if outcome == Error(DnsFatalError) then old(continuingDnsErrors) + 1 else 0
      ensures globalStop == (old(globalStop) || continuingDnsErrors > 2)
    {
      if outcome == Error(DnsFatalError) {
        continuingDnsErrors := continuingDnsErrors + 1;
        if continuingDnsErrors > 2 {
          globalStop := true;
        }
      } else {
        continuingDnsErrors := 0;
      }
    }

    /**
     `http_fetch_cb` and the callback it runs: the request is over, its record moves on.
     */
    method HttpFetchCb(req: nat, outcome: Outcome)
      requires Sound({}) && req in requests
      modifies this
      ensures Sound({}) && Later()
      ensures req !in requests && MovesOn(old(requests[req].record), outcome)
      ensures outcome == Error(DnsFatalError) && old(continuingDnsErrors) >= 2 ==> globalStop
      decreases |urls|, if outcome.Response? then 5 else 2
    {
      hide Placed, Counted, Limits, Answered, InOrder, Follows, SparesIn, PushedIn, MovesOnIn, Budget;
      var rec := CloseRequest(req);
      ghost var closed := Now();
      CountDnsErrors(outcome);
      ghost var counted := Now();
      assert Follows(old(Now()), counted) by {
        FollowsClose(old(Now()), req, rec.id);
        FollowsStop(closed, globalStop);
        FollowsChain(old(Now()), closed, counted);
      }
      if outcome.Response? && (outcome.code == 301 || outcome.code == 302) && !(rec.redirects > 3) {
        var redirected := rec.(redirects := rec.redirects + 1);
        if outcome.validLocation {
          RedirectIsReady(rec, submits, start);
          SubmitHttpFetch(redirected);
          Resubmitted(old(Now()), counted, Now(), rec, outcome, recordBufSize);
        } else {
          PushTask(redirected);
          PushedOn(old(Now()), counted, Now(), rec, outcome, recordBufSize);
        }
      } else {
        PushTask(rec);
        PushedOn(old(Now()), counted, Now(), rec, outcome, recordBufSize);
      }
      assert Later() by { FollowsChain(old(Now()), counted, Now()); }
      assert req !in requests && (counted.globalStop ==> globalStop) by { FollowsMeans(counted, Now()); }
    }

    static function Ids(rs: seq<Record>): seq<nat> {
      if rs == [] then [] else Ids(rs[..|rs| - 1]) + [rs[|rs| - 1].id]
    }

    /** The first buffered record goes to the hub; only an answer to come again leaves it where it is. */
    method PushFirst() returns (pushRet: PushResult)
      requires Sound({}) && recordBuffer != []
      modifies `answers, `recordBuffer, `place, `unbuffered, `hubLog
      ensures Sound({}) && Later()
      ensures answers == old(answers) + [Answer(old(recordBuffer)[0].id, pushRet)]
      ensures recordBuffer == if pushRet == PushAgain then old(recordBuffer) else old(recordBuffer)[1..]
      ensures hubLog == old(hubLog) + if pushRet == PushOk then [old(recordBuffer)[0].id] else []
      ensures pushRet == PushWarn || pushRet == PushError ==>
                old(recordBuffer)[0].id in place && place[old(recordBuffer)[0].id] == Dropped
    {
      hide Placed, Counted, Limits, Answered, Accepted, Refused, Follows;
      pushRet := HubPush(recordBuffer[0], {});
      ghost var asked := Now();
      assert Follows(old(Now()), asked) by { FollowsAnswer(old(Now()), Answer(recordBuffer[0].id, pushRet)); }
      if pushRet == PushAgain {
        return;
      }
      var rec := PopBuffer();
      ghost var popped := Now();
      FollowsChain(old(Now()), asked, popped);
      if pushRet == PushOk {
        Deliver(rec);
      } else {
        LetGo(rec, Dropped);
      }
      FollowsChain(old(Now()), popped, Now());
    }

    /**
     What the hub was asked while the buffer was drained, and what it answered: each record in turn,
     up to the first that it did not accept.
     */
    static predicate Asked(before: seq<Answer>, after: seq<Answer>, records: seq<Record>, rest: seq<Record>,
                           taken: nat, dropped: bool)
      requires taken <= |records| && (dropped ==> taken > 0)
    {
      var n, m := |before|, if dropped then taken - 1 else taken;
      && before <= after
      && |after| == n + m + (if dropped || rest != [] then 1 else 0)
      && (forall k :: 0 <= k < m ==> after[n + k] == Answer(records[k].id, PushOk))
      && (dropped ==> after[n + m] in [Answer(records[m].id, PushWarn), Answer(records[m].id, PushError)])
      && (!dropped && rest != [] ==> after[n + m] == Answer(rest[0].id, PushAgain))
    }

    /** One more record was asked about; as long as all were accepted, the drain goes on. */
    static lemma AskedMore(before: seq<Answer>, answers: seq<Answer>, records: seq<Record>, taken: nat,
                           result: PushResult)
      requires taken < |records| && Asked(before, answers, records, [], taken, false)
      ensures var after := answers + [Answer(records[taken].id, result)];
              && (result == PushOk ==> Asked(before, after, records, [], taken + 1, false))
              && (result == PushAgain ==> Asked(before, after, records, records[taken..], taken, false))
              && (result == PushWarn || result == PushError ==>
                    Asked(before, after, records, records[taken + 1..], taken + 1, true))
    {
    }

    /**
     `qcrawler_cycle_push_task`: the buffer is drained from the front, in order, until the hub asks
     to come again or refuses a record, which is then dropped.
     */
    method CyclePushTask() returns (ghost taken: nat, ghost dropped: bool)
      requires Sound({})
      modifies `answers, `recordBuffer, `place, `unbuffered, `hubLog, `pauseCrawl
      ensures Sound({}) && Later()
      ensures taken <= |old(recordBuffer)| && recordBuffer == old(recordBuffer)[taken..]
      ensures dropped ==> taken > 0 && old(recordBuffer)[taken - 1].id in place
                          && place[old(recordBuffer)[taken - 1].id] == Dropped
      ensures hubLog == old(hubLog) + Ids(old(recordBuffer)[..if dropped then taken - 1 else taken])
      ensures Asked(old(answers), answers, old(recordBuffer), recordBuffer, taken, dropped)
      ensures pauseCrawl == (old(pauseCrawl) || (recordBuffer != [] && !dropped))
    {
      hide Placed, Counted, Limits, Answered, Ids, Follows, Asked, Drained;
      FollowsAtOnce(Now());
      DrainBegins(hubLog, answers, recordBuffer);
      taken, dropped := 0, false;
      while recordBuffer != []
        invariant Sound({}) && Later()
        invariant Drained(old(hubLog), hubLog, old(answers), answers, old(recordBuffer), recordBuffer, taken)
        invariant pauseCrawl == old(pauseCrawl)
        decreases |recordBuffer|
      {
        ghost var before := Now();
        var pushRet := PushFirst();
        assert Later() by { FollowsChain(old(Now()), before, Now()); }
        if pushRet == PushAgain {
          DrainStopped(old(hubLog), before.hubLog, old(answers), before.answers, old(recordBuffer), recordBuffer,
                       taken);
          ghost var stopped := Now();
          pauseCrawl := true;
          assert Later() by { FollowsPause(old(Now()), stopped, true); }
          return;
        }
        DrainGoesOn(old(hubLog), before.hubLog, old(answers), before.answers, old(recordBuffer), before.recordBuffer,
                    taken, pushRet);
        taken := taken + 1;
        if pushRet != PushOk {
          dropped := true;
          return;
        }
      }
      DrainDone(old(hubLog), hubLog, old(answers), answers, old(recordBuffer), taken);
    }

    /** All of the first `taken` records were accepted. */
    static ghost predicate Drained(hubBefore: seq<nat>, hubLog: seq<nat>, before: seq<Answer>, answers: seq<Answer>,
                                   records: seq<Record>, rest: seq<Record>, taken: nat) {
      && taken <= |records| && rest == records[taken..]
      && hubLog == hubBefore + Ids(records[..taken])
      && Asked(before, answers, records, [], taken, false)
    }

    static lemma DrainBegins(hubLog: seq<nat>, answers: seq<Answer>, records: seq<Record>)
      ensures Drained(hubLog, hubLog, answers, answers, records, records, 0)
    {
      IdsOfNone(records);
      AskedNothing(answers, records);
      assert records[0..] == records;
    }

    static lemma DrainDone(hubBefore: seq<nat>, hubLog: seq<nat>, before: seq<Answer>, answers: seq<Answer>,
                           records: seq<Record>, taken: nat)
      requires Drained(hubBefore, hubLog, before, answers, records, [], taken)
      ensures taken == |records| && records[taken..] == [] && hubLog == hubBefore + Ids(records[..taken])
      ensures Asked(before, answers, records, [], taken, false)
    {
    }

    static lemma DrainStopped(hubBefore: seq<nat>, hubLog: seq<nat>, before: seq<Answer>, answers: seq<Answer>,
                              records: seq<Record>, rest: seq<Record>, taken: nat)
      requires Drained(hubBefore, hubLog, before, answers, records, rest, taken) && rest != []
      ensures taken <= |records| && rest == records[taken..] && hubLog == hubBefore + Ids(records[..taken])
      ensures Asked(before, answers + [Answer(rest[0].id, PushAgain)], records, rest, taken, false)
    {
      hide Asked, Ids;
      AskedMore(before, answers, records, taken, PushAgain);
    }

    static lemma DrainGoesOn(hubBefore: seq<nat>, hubLog: seq<nat>, before: seq<Answer>, answers: seq<Answer>,
                             records: seq<Record>, rest: seq<Record>, taken: nat, result: PushResult)
      requires Drained(hubBefore, hubLog, before, answers, records, rest, taken) && rest != [] && result != PushAgain
      ensures taken < |records| && rest[0] == records[taken] && rest[1..] == records[taken + 1..]
      ensures hubLog == hubBefore + Ids(records[..taken])
      ensures var asked := answers + [Answer(rest[0].id, result)];
              if result == PushOk then
                Drained(hubBefore, hubLog + [rest[0].id], before, asked, records, rest[1..], taken + 1)
              else Asked(before, asked, records, rest[1..], taken + 1, true)
    {
      hide Asked, Ids;
      AskedMore(before, answers, records, taken, result);
      IdsStep(records, taken);
    }

    static lemma AskedFirst(before: seq<Answer>, after: seq<Answer>, records: seq<Record>, rest: seq<Record>,
                            taken: nat, dropped: bool)
      requires taken <= |records| && (dropped ==> taken > 0) && rest == records[taken..] && records != []
      requires Asked(before, after, records, rest, taken, dropped)
      ensures |before| < |after| && after[|before|].id == records[0].id
    {
    }

    static lemma AskedNothing(answers: seq<Answer>, records: seq<Record>)
      ensures Asked(answers, answers, records, [], 0, false)
    {
    }

    static lemma IdsOfNone(rs: seq<Record>)
      ensures Ids(rs[..0]) == []
    {
    }

    static lemma IdsStep(rs: seq<Record>, i: nat)
      requires i < |rs|
      ensures Ids(rs[..i + 1]) == Ids(rs[..i]) + [rs[i].id]
    {
      assert rs[..i + 1][..i] == rs[..i];
    }

    // ---------- The event loop ----------

    /** The request is one the event loop is waiting for, in this phase. */
    predicate Waiting(req: nat, phase: Phase)
      reads `requests
    {
      req in requests && requests[req].phase == phase
    }

    /** What an event leads to. */
    twostate predicate Reacts(event: Event)
      reads `urls, `nextRecord, `hubLog, `answers, `start, `place, `globalStop, `pauseCrawl, `requests, `nextRequest,
            `recordBuffer, `submits
    {
      match event
      case Timer =>
        // with an empty buffer and room for a connection, records are fetched again; else the hub is asked first
        if old(recordBuffer) == [] then
          (!old(globalStop) && old(httpConnections) < multiple && old(urls) != [] ==> Fetched())
        else |old(answers)| < |answers| && answers[|old(answers)|].id == old(recordBuffer)[0].id
      case Resolved(req, status) =>
        old(Waiting(req, Resolving)) ==>
          var rec := old(requests)[req].record;
          || (status == 0 && requests == old(requests)[req := Request(rec, Connecting)])
          || (req !in requests && Pushed(rec))
      case Connected(req, error) =>
        old(Waiting(req, Connecting)) ==>
          if error then req !in requests && Pushed(old(requests)[req].record)
          else requests == old(requests)[req := Request(old(requests)[req].record, Reading)]
      case Closed(req, outcome) =>
        old(Waiting(req, Reading)) ==> req !in requests && MovesOn(old(requests)[req].record, outcome)
      case Expired(req) =>
        old(Waiting(req, Connecting) || Waiting(req, Reading)) ==>
          req !in requests && Pushed(old(requests)[req].record)
    }

    lemma BufferHasRoom()
      requires Limits()
      ensures recordBufSize > 0
    {
    }

    /** `global_timer_callback`: the buffer is drained, then records are fetched. */
    method TimerCallback()
      requires Sound({})
      modifies this
      ensures Sound({}) && Later()
      ensures old(recordBuffer) == [] && !old(globalStop) && old(httpConnections) < multiple && old(urls) != [] ==>
                Fetched()
      ensures old(recordBuffer) != [] ==>
                |old(answers)| < |answers| && answers[|old(answers)|].id == old(recordBuffer)[0].id
    {
      hide Placed, Counted, Limits, Answered, Follows, FetchedIn, SparesIn, Ids, Asked;
      ghost var taken, dropped := CyclePushTask();
      ghost var pushed := Now();
      BufferHasRoom();
      ghost var rounds, outOfRecords := CycleFetchTask(LIMIT);
      FollowsChain(old(Now()), pushed, Now());
      assert pushed.answers <= answers by { FollowsMeans(pushed, Now()); }
      if old(recordBuffer) != [] {
        AskedFirst(old(answers), pushed.answers, old(recordBuffer), pushed.recordBuffer, taken, dropped);
      }
      FetchedAsWell(old(Now()), pushed, Now());
    }

    /** One event, if it concerns a request that is waiting for it. */
    method Handle(event: Event)
      requires Sound({})
      modifies this
      ensures Sound({}) && Later()
      ensures Reacts(event)
    {
      hide Placed, Counted, Answered, Follows, FetchedIn, PushedIn, SparesIn;
      FollowsAtOnce(Now());
      match event
      case Timer => TimerCallback();
      case Resolved(req, status) =>
        if req in requests && requests[req].phase == Resolving {
          HttpDnsCb(req, status);
        }
      case Connected(req, error) =>
        if req in requests && requests[req].phase == Connecting {
          if error {
            HttpFetchCb(req, Error(ConnectError));
          } else {
            SetPhase(req, Reading);
          }
        }
      case Closed(req, outcome) =>
        if req in requests && requests[req].phase == Reading {
          HttpFetchCb(req, outcome);
        }
      case Expired(req) =>
        if req in requests && requests[req].phase != Resolving {
          HttpFetchCb(req, Error(TimeoutError));
        }
    }

    /** Any events in any order: the crawler stays sound and forgets nothing. */
    method Loop(events: seq<Event>)
      requires Sound({})
      modifies this
      ensures Sound({}) && Later()
      ensures httpConnections <= multiple
      ensures |recordBuffer| + httpConnections <= recordBufSize + multiple - 1
      ensures forall id :: id in start && start[id] == 0 ==> id in submits && submits[id] <= 1 + 4
      ensures forall id :: id in place && place[id].Delivered? ==> Accepted(answers, id)
      ensures forall id :: id in place && place[id].Dropped? ==> Refused(answers, id)
    {
      hide Placed, Counted, Answered, Accepted, Refused, Follows;
      FollowsAtOnce(Now());
      for i := 0 to |events|
        invariant Sound({}) && Later()
      {
        ghost var before := Now();
        Handle(events[i]);
        FollowsChain(old(Now()), before, Now());
      }
      AtMostFive();
      AsAnswered();
    }

    lemma AtMostFive()
      requires Counted()
      ensures forall id :: id in start && start[id] == 0 ==> id in submits && submits[id] <= 1 + 4
    {
      hide AllInOrder;
    }

    lemma AsAnswered()
      requires Answered()
      ensures forall id :: id in place && place[id].Delivered? ==> Accepted(answers, id)
      ensures forall id :: id in place && place[id].Dropped? ==> Refused(answers, id)
    {
      hide Accepted, Refused;
    }
  }

  /** A redirect within the limit leaves a submission to spend. */
  lemma RedirectIsReady(rec: Record, submits: map<nat, nat>, start: map<nat, int>)
    requires InOrder(rec, submits, start) && rec.redirects <= MAX_REDIRECTS
    ensures rec.id in submits && rec.id in start
    ensures submits[rec.id] == rec.redirects + 1 - start[rec.id] && submits[rec.id] < Budget(start[rec.id])
  {
  }
}
