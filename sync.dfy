/**
 * The `/api/dolarg` route: the API-key check and the cooldown run first,
 * then one sync attempt scrapes the quotes and commits either a success
 * record or a failure status to the shared Firestore document.
 */
module DolargSync {
  import opened Wrappers
  import opened Http
  import opened DolargScraper
  import Auth
  import Cooldown

  /** The stored document (`DolargData`); timestamps are milliseconds. */
  datatype DolargData = DolargData(
    data: Option<seq<Dolarg>>,
    syncError: Option<bool>,
    syncErrorMsg: Option<string>,
    syncDate: Option<int>
  )

  /** One field of an `update` call: left out of the call, or given a value. */
  datatype Field<T> = Keep | Set(value: T)

  /** The object passed to `update`: only the fields it names are overwritten. */
  datatype Patch = Patch(
    data: Field<Option<seq<Dolarg>>>,
    syncError: Field<Option<bool>>,
    syncErrorMsg: Field<Option<string>>,
    syncDate: Field<Option<int>>
  )

  function Merge<T>(current: T, f: Field<T>): T
  {
    match f
    case Keep => current
    case Set(v) => v
  }

  /** Firestore `update` semantics: named fields replaced, the others kept. */
  function Apply(d: DolargData, p: Patch): (r: DolargData)
    ensures p.data.Keep? ==> r.data == d.data
    ensures p.syncError.Keep? ==> r.syncError == d.syncError
    ensures p.syncErrorMsg.Keep? ==> r.syncErrorMsg == d.syncErrorMsg
    ensures p.syncDate.Keep? ==> r.syncDate == d.syncDate
    ensures p.data.Set? ==> r.data == p.data.value
    ensures p.syncError.Set? ==> r.syncError == p.syncError.value
    ensures p.syncErrorMsg.Set? ==> r.syncErrorMsg == p.syncErrorMsg.value
    ensures p.syncDate.Set? ==> r.syncDate == p.syncDate.value
  {
    DolargData(Merge(d.data, p.data), Merge(d.syncError, p.syncError),
               Merge(d.syncErrorMsg, p.syncErrorMsg), Merge(d.syncDate, p.syncDate))
  }

  /** The success write: new data, error cleared, fresh date. */
  function SuccessPatch(data: seq<Dolarg>, now: int): (p: Patch)
    ensures forall d :: Apply(d, p) == DolargData(Some(data), Some(false), None, Some(now))
  {
    Patch(Set(Some(data)), Set(Some(false)), Set(None), Set(Some(now)))
  }

  /** The failure write: error flag, message and date only. */
  function FailurePatch(message: string, now: int): (p: Patch)
    ensures forall d :: Apply(d, p) == DolargData(d.data, Some(true), Some(message), Some(now))
  {
    Patch(Keep, Set(Some(true)), Set(Some(message)), Set(Some(now)))
  }

  /** Repeating an update changes nothing more: the merge is idempotent. */
  lemma ApplyIdempotent(d: DolargData, p: Patch)
    ensures Apply(Apply(d, p), p) == Apply(d, p)
  {
  }

  /** A read of the document, or an `update` call (applied or thrown). */
  datatype Access = Read | Write(patch: Patch, applied: bool)

  /** The Firestore document at DOLARG_DOC_REF, with the accesses made to it. */
  class Store {
    var doc: DolargData
    var log: seq<Access>

    constructor (initial: DolargData)
      ensures doc == initial && log == []
    {
      doc := initial;
      log := [];
    }

    /** `getFirestoreData`: reads the document, changes nothing. */
    method Get() returns (d: DolargData)
      modifies this`log
      ensures d == doc
      ensures log == old(log) + [Read]
    {
      d := doc;
      log := log + [Read];
    }

    /** `updateFirestoreData`; `error` is what the backend throws for this call, if anything. */
    method Update(p: Patch, error: Option<string>) returns (thrown: Option<string>)
      modifies this
      ensures thrown == error
      ensures doc == if error.None? then Apply(old(doc), p) else old(doc)
      ensures log == old(log) + [Write(p, error.None?)]
    {
      if error.None? {
        doc := Apply(doc, p);
      }
      log := log + [Write(p, error.None?)];
      thrown := error;
    }
  }

  const SuccessText := "Proceso completado con éxito. Se actualizaron los datos de dolarg."

  /** A handler's answer, or an exception escaping it (the framework then answers 500). */
  datatype Reply = Answer(response: Response) | Thrown(message: string)

  /** The failure response: 500 and the message after `ERROR: `. */
  function ErrorResponse(message: string): (r: Response)
    ensures r.status == 500 && |r.body| >= 7 && r.body[..7] == "ERROR: " && r.body[7..] == message
  {
    Response(500, "ERROR: " + message)
  }

  /**
   * The specification of one attempt, which the imperative `HandleDolarg` is
   * proved to meet: the document after it, the accesses it makes and its
   * reply, from the scrape outcome and what each write throws.
   */
  function Attempt(d: DolargData, scraped: Result<seq<Dolarg>>, now: int,
                   successWriteError: Option<string>, failureWriteError: Option<string>)
    : (r: (DolargData, seq<Access>, Reply))
    ensures r.0.data == if scraped.Ok? && successWriteError.None? then Some(scraped.value) else d.data
    ensures r.0.syncDate == if (scraped.Ok? && successWriteError.None?) || failureWriteError.None? then Some(now) else d.syncDate
    ensures r.2.Thrown? <==> !(scraped.Ok? && successWriteError.None?) && failureWriteError.Some?
  {
    if scraped.Ok? && successWriteError.None? then
      var p := SuccessPatch(scraped.value, now);
      (Apply(d, p), [Write(p, true)], Answer(Text(SuccessText)))
    else
      var first := if scraped.Ok? then [Write(SuccessPatch(scraped.value, now), false)] else [];
      var message := if scraped.Ok? then successWriteError.value else scraped.message;
      var p := FailurePatch(message, now);
      if failureWriteError.None? then
        (Apply(d, p), first + [Write(p, true)], Answer(ErrorResponse(message)))
      else
        (d, first + [Write(p, false)], Thrown(failureWriteError.value))
  }

  /** The `/api/dolarg` handler, the imperative rendering of `Attempt`: scrape, then commit success or (in the catch) failure. */
  method HandleDolarg(store: Store, dataUrl: Option<string>, fromUrl: string -> Result<seq<ChildElement>>,
                      now: int, successWriteError: Option<string>, failureWriteError: Option<string>)
    returns (reply: Reply)
    modifies store
    ensures |store.log| >= |old(store.log)| && store.log[..|old(store.log)|] == old(store.log)
    ensures (store.doc, store.log[|old(store.log)|..], reply) ==
      Attempt(old(store.doc), ScrapeOutcome(dataUrl, fromUrl), now, successWriteError, failureWriteError)
  {
    ghost var log0 := store.log;
    var scraped := GetDolargData(dataUrl, fromUrl);
    var message: string;
    ghost var first: seq<Access> := [];
    if scraped.Ok? {
      var thrown := store.Update(SuccessPatch(scraped.value, now), successWriteError);
      if thrown.None? {
        assert store.log[|log0|..] == [Write(SuccessPatch(scraped.value, now), true)];
        return Answer(Text(SuccessText));
      }
      message := thrown.value;
      first := [Write(SuccessPatch(scraped.value, now), false)];
    } else {
      message := scraped.message;
    }
    assert store.log == log0 + first;
    var thrown := store.Update(FailurePatch(message, now), failureWriteError);
    assert store.log[|log0|..] == first + [Write(FailurePatch(message, now), failureWriteError.None?)];
    if thrown.Some? {
      return Thrown(thrown.value);
    }
    return Answer(ErrorResponse(message));
  }

  /**
   * One POST to `/api/dolarg` through the middleware chain: `apiKeyAuth`
   * (registered first, for every route under `/api/`), then `dolargCooldown`, then the handler.
   */
  method ServeDolarg(store: Store, requestApiKey: Option<string>, commanderApiKey: Option<string>,
                     gateNow: int, dataUrl: Option<string>, fromUrl: string -> Result<seq<ChildElement>>,
                     now: int, successWriteError: Option<string>, failureWriteError: Option<string>)
    returns (reply: Reply)
    modifies store
    ensures Auth.ApiKeyAuth(requestApiKey, commanderApiKey).Some? ==>
      reply == Answer(Auth.Unauthorized) && store.doc == old(store.doc) && store.log == old(store.log)
    ensures Auth.ApiKeyAuth(requestApiKey, commanderApiKey).None? &&
            Cooldown.DolargCooldown(old(store.doc).syncDate, gateNow).Some? ==>
      reply == Answer(Cooldown.DolargCooldown(old(store.doc).syncDate, gateNow).value) &&
      store.doc == old(store.doc) && store.log == old(store.log) + [Read]
    ensures Auth.ApiKeyAuth(requestApiKey, commanderApiKey).None? &&
            Cooldown.DolargCooldown(old(store.doc).syncDate, gateNow).None? ==>
      (var outcome := Attempt(old(store.doc), ScrapeOutcome(dataUrl, fromUrl), now,
                              successWriteError, failureWriteError);
       store.doc == outcome.0 && store.log == old(store.log) + [Read] + outcome.1 && reply == outcome.2)
  {
    var denied := Auth.ApiKeyAuth(requestApiKey, commanderApiKey);
    if denied.Some? {
      return Answer(denied.value);
    }
    var current := store.Get();
    var cooling := Cooldown.DolargCooldown(current.syncDate, gateNow);
    if cooling.Some? {
      return Answer(cooling.value);
    }
    ghost var before := store.log;
    reply := HandleDolarg(store, dataUrl, fromUrl, now, successWriteError, failureWriteError);
    assert store.log == before + store.log[|before|..];
  }

  // ---------------------------------------------------------------------
  // Properties of one attempt

  /** A successful scrape and write stores the list, clears the error and stamps the date, whatever was there. */
  lemma SuccessCommit(d: DolargData, qs: seq<Dolarg>, now: int, failureWriteError: Option<string>)
    ensures Attempt(d, Ok(qs), now, None, failureWriteError).0 == DolargData(Some(qs), Some(false), None, Some(now))
    ensures Attempt(d, Ok(qs), now, None, failureWriteError).2 == Answer(Response(200, SuccessText))
  {
  }

  /** A failed scrape writes only the status fields: the previous data survives. */
  lemma FailureKeepsData(d: DolargData, message: string, now: int)
    ensures Attempt(d, Err(message), now, None, None).0 ==
      DolargData(d.data, Some(true), Some(message), Some(now))
  {
  }

  /** The 500 body carries exactly the message stored in `syncErrorMsg`. */
  lemma ReportedMessageIsStored(d: DolargData, scraped: Result<seq<Dolarg>>, now: int, successWriteError: Option<string>)
    requires scraped.Err? || successWriteError.Some?
    ensures Attempt(d, scraped, now, successWriteError, None).2.Answer?
    ensures Attempt(d, scraped, now, successWriteError, None).2.response ==
      ErrorResponse(Attempt(d, scraped, now, successWriteError, None).0.syncErrorMsg.value)
  {
  }

  /** If the success write throws, the catch writes a failure, so the final status is a failure and the data is the old one. */
  lemma ThrowingSuccessWriteEndsAsFailure(d: DolargData, qs: seq<Dolarg>, now: int, message: string)
    ensures Attempt(d, Ok(qs), now, Some(message), None).0 ==
      DolargData(d.data, Some(true), Some(message), Some(now))
    ensures |Attempt(d, Ok(qs), now, Some(message), None).1| == 2
  {
  }

  function AppliedWrites(accesses: seq<Access>): nat
  {
    if |accesses| == 0 then 0
    else (if accesses[0].Write? && accesses[0].applied then 1 else 0) + AppliedWrites(accesses[1..])
  }

  lemma AppliedWritesOne(a: Access)
    ensures AppliedWrites([a]) == if a.Write? && a.applied then 1 else 0
  {
    assert [a][1..] == [];
  }

  lemma AppliedWritesTwo(a: Access, b: Access)
    ensures AppliedWrites([a, b]) == (if a.Write? && a.applied then 1 else 0) + (if b.Write? && b.applied then 1 else 0)
  {
    assert [a, b][1..] == [b];
    AppliedWritesOne(b);
  }

  /** Unless the store throws in the catch, exactly one write takes effect per attempt; no attempt reads the store. */
  lemma OneCommitPerAttempt(d: DolargData, scraped: Result<seq<Dolarg>>, now: int,
                            successWriteError: Option<string>, failureWriteError: Option<string>)
    ensures var accesses := Attempt(d, scraped, now, successWriteError, failureWriteError).1;
      1 <= |accesses| <= 2 && Read !in accesses &&
      AppliedWrites(accesses) == (if failureWriteError.None? || (scraped.Ok? && successWriteError.None?) then 1 else 0)
  {
    var accesses := Attempt(d, scraped, now, successWriteError, failureWriteError).1;
    if scraped.Ok? && successWriteError.None? {
      AppliedWritesOne(accesses[0]);
      assert accesses == [accesses[0]];
    } else if scraped.Ok? {
      AppliedWritesTwo(accesses[0], accesses[1]);
      assert accesses == [accesses[0], accesses[1]];
    } else {
      AppliedWritesOne(accesses[0]);
      assert accesses == [accesses[0]];
    }
  }

  /** A page with no matching tiles is committed as a success with an empty list. */
  lemma EmptyPageIsSuccess(d: DolargData, url: string, fromUrl: string -> Result<seq<ChildElement>>, now: int)
    requires url != "" && fromUrl(url) == Ok([])
    ensures Attempt(d, ScrapeOutcome(Some(url), fromUrl), now, None, None).0 ==
      DolargData(Some([]), Some(false), None, Some(now))
  {
  }
}
