/**
 The execute endpoint as it is coded: the repository of idempotency records,
 the middlewares before the controller, and the controller that enqueues,
 stores and replies.  The request hash is computed and stored but never
 compared, and the expiry of a record is written but never read, as the
 service does.
 */
module SwapController {
  import opened Prelude
  import opened TransactionQueue
  import opened SwapProtocol

  class IdempotencyRepository {
    var table: map<string, Record>

    constructor ()
      ensures table == map[]
    {
      table := map[];
    }

    method FindIdempotencyRecord(key: string) returns (r: Option<Record>)
      ensures r == Get(table, key)
    {
      if key in table {
        return Some(table[key]);
      }
      return None;
    }

    /** Upsert; a failed write changes nothing and throws. */
    method StoreIdempotencyRecord(key: string, hash: string, response: Response, ok: bool) returns (threw: bool)
      modifies this
      ensures threw == !ok
      ensures table == if ok then old(table)[key := Record(hash, response, true)] else old(table)
    {
      if !ok {
        return true;
      }
      table := table[key := Record(hash, response, true)];
      return false;
    }
  }

  class Controller {
    const repository: IdempotencyRepository
    const queue: JobTable

    constructor (repository: IdempotencyRepository, queue: JobTable)
      ensures this.repository == repository && this.queue == queue
    {
      this.repository, this.queue := repository, queue;
    }

    /** The key of a request is its trimmed header; an absent header is an empty key. */
    method RequireIdempotencyKey(header: Option<string>) returns (key: string, refusal: Option<Refusal>)
      ensures key == KeyOf(header) && refusal == KeyRefusal(key)
      ensures if header.Some? then key == Trim(header.value) else key == ""
      ensures refusal == Some(MissingKey) <==> |key| == 0
      ensures refusal == Some(InvalidKey) <==> |key| > 64
      ensures refusal.None? <==> 1 <= |key| < 65
    {
      key := Trim(if header.Some? then header.value else "");
      if key == "" {
        return key, Some(MissingKey);
      }
      if |key| > 64 {
        return key, Some(InvalidKey);
      }
      return key, None;
    }

    /**
     Check, validate, enqueue, store, reply; a write that throws ends the
     request with an error, the store's with the job already in the queue.
     */
    method SwapExecute(requestId: nat, header: Option<string>, hash: string, c: Circumstances) returns (reply: Reply)
      modifies repository, queue
      ensures KeyRefusal(KeyOf(header)).Some? ==>
                && repository.table == old(repository.table) && queue.rows == old(queue.rows)
                && reply == Refused(KeyRefusal(KeyOf(header)).value)
      ensures KeyRefusal(KeyOf(header)).None? ==>
                var (records, jobs, pc) :=
                  Serve(old(repository.table), old(queue.rows), requestId, KeyOf(header), hash, c);
                && repository.table == records && queue.rows == jobs
                && reply == ReplyAt(pc, c)
      ensures Told(old(repository.table), old(queue.rows), repository.table, queue.rows,
                   requestId, KeyOf(header), hash, c, reply)
    {
      var key, refusal := RequireIdempotencyKey(header);
      if refusal.Some? {
        return Refused(refusal.value);
      }
      var existing := repository.FindIdempotencyRecord(key);
      if existing.Some? && existing.value.completed {
        return Answered(existing.value.response);
      }
      if !c.ParamsValid() {
        return Refused(InvalidParams);
      }
      if !c.BodyValid() {
        return Refused(InvalidBody);
      }
      if !c.chainKnown {
        return Refused(ChainNotFound);
      }
      if c.body.None? || c.body.value.to == "" || c.body.value.data == "" || c.body.value.value.None? {
        return Refused(InvalidTransaction);
      }
      if !c.enqueueOk {
        return Refused(ServerError);
      }
      var transactionId := queue.EnqueueTransactionJob(key);
      var response := Response(requestId, transactionId);
      var threw := repository.StoreIdempotencyRecord(key, hash, response, c.storeOk);
      if threw {
        return Refused(ServerError);
      }
      return Answered(response);
    }
  }

  /**
   What a client is told, and what is in the tables when it is told it, for a
   request with this key: each case from the request and the record alone.
   */
  predicate Told(records: map<string, Record>, jobs: seq<Job>, records2: map<string, Record>, jobs2: seq<Job>,
                 requestId: nat, key: string, hash: string, c: Circumstances, reply: Reply)
  {
    if |key| == 0 then Untouched(records, jobs, records2, jobs2) && reply == Refused(MissingKey)
    else if |key| >= 65 then Untouched(records, jobs, records2, jobs2) && reply == Refused(InvalidKey)
    else if key in records && records[key].completed then
      Untouched(records, jobs, records2, jobs2) && reply == Answered(records[key].response)
    else if !NumericText(c.chainId) then Untouched(records, jobs, records2, jobs2) && reply == Refused(InvalidParams)
    else if c.body.None? || c.body.value.to == "" || c.body.value.data == "" then
      Untouched(records, jobs, records2, jobs2) && reply == Refused(InvalidBody)
    else if !c.chainKnown then Untouched(records, jobs, records2, jobs2) && reply == Refused(ChainNotFound)
    else if c.body.value.value.None? then
      Untouched(records, jobs, records2, jobs2) && reply == Refused(InvalidTransaction)
    else if !c.enqueueOk then Untouched(records, jobs, records2, jobs2) && reply == Refused(ServerError)
    else
      && jobs2 == jobs + [Job(key, Pending, None, false, 0, None)]
      && (if c.storeOk then
            && reply == Answered(Response(requestId, |jobs|))
            && records2 == records[key := Record(hash, Response(requestId, |jobs|), true)]
          else reply == Refused(ServerError) && records2 == records)
  }

  predicate Untouched(records: map<string, Record>, jobs: seq<Job>, records2: map<string, Record>, jobs2: seq<Job>) {
    records2 == records && jobs2 == jobs
  }

  predicate NumericText(s: string) { |s| > 0 && forall i :: 0 <= i < |s| ==> s[i] in "0123456789" }

  /** Serving a request tells its client that. */
  lemma ServedIsTold(records: map<string, Record>, jobs: seq<Job>, id: nat, key: string, hash: string, c: Circumstances)
    requires 0 < |key| <= 64
    ensures var (records2, jobs2, pc) := Serve(records, jobs, id, key, hash, c);
            Told(records, jobs, records2, jobs2, id, key, hash, c, ReplyAt(pc, c))
  {
    assert c.ParamsValid() <==> NumericText(c.chainId);
  }

  /**
   A duplicate is told what the first request was told: once a request was
   answered, a later one with the same key, in any circumstances, gets the
   same answer and changes nothing.
   */
  lemma DuplicateIsToldTheSame(records: map<string, Record>, jobs: seq<Job>, records2: map<string, Record>,
                               jobs2: seq<Job>, records3: map<string, Record>, jobs3: seq<Job>, id: nat, later: nat,
                               key: string, hash: string, laterHash: string, c: Circumstances, d: Circumstances,
                               first: Reply, second: Reply)
    requires Told(records, jobs, records2, jobs2, id, key, hash, c, first) && first.Answered?
    requires Told(records2, jobs2, records3, jobs3, later, key, laterHash, d, second)
    ensures second == first && Untouched(records2, jobs2, records3, jobs3)
  {
  }

  /** A client is told an answer exactly when its request ended with one in the protocol. */
  lemma RepliesAreAnswers(key: string, hash: string, pc: Pc, c: Circumstances, x: Response)
    ensures ReplyAt(pc, c) == Answered(x) <==> Answer(Request(key, hash, pc)) == Some(x)
  {
  }

  datatype Reply = Answered(response: Response) | Refused(refusal: Refusal)

  // ----- the key

  /** The white space and line ends that JavaScript's trim removes. */
  predicate IsSpace(c: char) {
    || '\t' <= c <= '\r' || c == ' ' || c == '\U{00A0}' || c == '\U{1680}' || '\U{2000}' <= c <= '\U{200A}'
    || c == '\U{2028}' || c == '\U{2029}' || c == '\U{202F}' || c == '\U{205F}' || c == '\U{3000}' || c == '\U{FEFF}'
  }

  lemma SpacesAre(c: char)
    ensures IsSpace(c) <==> c in "\t\n\U{000B}\U{000C}\r \U{00A0}\U{1680}\U{2000}\U{2001}\U{2002}\U{2003}\U{2004}"
                              + "\U{2005}\U{2006}\U{2007}\U{2008}\U{2009}\U{200A}\U{2028}\U{2029}\U{202F}\U{205F}"
                              + "\U{3000}\U{FEFF}"
  {
  }

  function TrimStart(s: string): string { if s != "" && IsSpace(s[0]) then TrimStart(s[1..]) else s }

  function TrimEnd(s: string): string { if s != "" && IsSpace(Last(s)) then TrimEnd(Init(s)) else s }

  function Trim(s: string): string { TrimEnd(TrimStart(s)) }

  predicate Blank(s: string) { forall i :: 0 <= i < |s| ==> IsSpace(s[i]) }

  predicate Tight(s: string) { s != "" ==> !IsSpace(s[0]) && !IsSpace(Last(s)) }

  lemma {:induction false} TrimStartCuts(s: string) returns (front: string)
    ensures Blank(front) && s == front + TrimStart(s)
    ensures TrimStart(s) != "" ==> !IsSpace(TrimStart(s)[0])
  {
    front := "";
    if s == "" || !IsSpace(s[0]) {
    } else {
      var rest := TrimStartCuts(s[1..]);
      front := [s[0]] + rest;
      assert s == [s[0]] + s[1..];
    }
  }

  lemma {:induction false} TrimEndCuts(s: string) returns (back: string)
    ensures Blank(back) && s == TrimEnd(s) + back
    ensures TrimEnd(s) != "" ==> !IsSpace(Last(TrimEnd(s))) && TrimEnd(s)[0] == s[0]
  {
    back := "";
    if s == "" || !IsSpace(Last(s)) {
    } else {
      var rest := TrimEndCuts(Init(s));
      back := rest + [Last(s)];
      assert s == Init(s) + [Last(s)];
    }
  }

  /** Trimming removes white space at both ends and nothing else, and leaves none there. */
  lemma TrimIsExact(s: string) returns (front: string, back: string)
    ensures Blank(front) && Blank(back) && s == front + Trim(s) + back && Tight(Trim(s))
  {
    front := TrimStartCuts(s);
    back := TrimEndCuts(TrimStart(s));
  }

  function KeyOf(header: Option<string>): string { Trim(if header.Some? then header.value else "") }

  function KeyRefusal(key: string): Option<Refusal> {
    if key == "" then Some(MissingKey) else if |key| > 64 then Some(InvalidKey) else None
  }

  /** What a client is told of a request that ended at `pc`. */
  function ReplyAt(pc: Pc, c: Circumstances): Reply {
    match pc
    case Replied(response) => Answered(response)
    case Replayed(response) => Answered(response)
    case Rejected => Refused(if c.Obstacle().Some? then c.Obstacle().value else ServerError)
    case _ => Refused(ServerError)
  }
}
