/** The synchronisation run (src/fetch-links.ts): read the configuration,
    load the stored token set, open the bookmark database, fetch every link,
    persist a refreshed token set, then save the links as bookmarks in
    batches of ten, pausing between batches and adding up what each batch
    reports. Everything the run does to the outside world is recorded, in
    order, as an `Effect`; the outcomes of the outside calls are parameters
    (`stored`, `dbInit`, `persisted`) or oracles (`post`, `get`, `save`). */
module FetchLinks {
  import opened Types
  import opened Http
  import opened Auth
  import opened Client

  const DefaultRedirectUri: string := "http://localhost:3000/callback"
  const NoTokensMessage: string := "No authentication tokens found. Please authenticate first."
  const BatchSize: nat := 10

  /** A bookmark as handed to the database: the link it wraps. */
  datatype Bookmark = Bookmark(raindropLink: RaindropLink)

  /** What one batch save reports. */
  datatype SaveCounts = SaveCounts(saved: nat, skipped: nat)

  /** saveBookmarksBatch, seen from the run: it answers with counts or throws. */
  type BatchSaver = seq<Bookmark> -> Result<SaveCounts>

  /** An action on the outside world, in the order the run performs it. */
  datatype Effect =
    | InitDb                          // initializeBookmarkDb
    | Remote(call: Call)              // one HTTP request of getAllLinks
    | PersistTokens(tokens: AuthTokens) // saveTokens
    | SaveBatch(batch: seq<Bookmark>) // saveBookmarksBatch
    | Pause                           // the 500 ms wait between batches

  /** How the run ends: `process.exit(1)` after printing `message`, or
      returning the fetch result, the save totals having been printed. */
  datatype RunOutcome =
    | Exited(message: string)
    | Completed(result: LinksResult, totalSaved: nat, totalSkipped: nat)

  datatype Run = Run(outcome: RunOutcome, effects: seq<Effect>)

  // ---------------------------------------------------------------- configuration

  /** `process.env[key] || fallback`: an unset or empty variable gives the fallback. */
  function EnvOr(env: map<string, string>, key: string, fallback: string): string
  {
    if key in env && env[key] != "" then env[key] else fallback
  }

  function CredentialsFromEnv(env: map<string, string>): Credentials
  {
    Credentials(EnvOr(env, "RAINDROP_CLIENT_ID", ""),
                EnvOr(env, "RAINDROP_CLIENT_SECRET", ""),
                EnvOr(env, "RAINDROP_REDIRECT_URI", DefaultRedirectUri))
  }

  /** A configured variable is used as it is; a missing or empty one gives
      an empty client id or secret and the local callback URI. */
  lemma MissingConfigDefaults(env: map<string, string>)
    ensures var creds := CredentialsFromEnv(env);
      && ("RAINDROP_CLIENT_ID" in env && env["RAINDROP_CLIENT_ID"] != "" ==> creds.clientId == env["RAINDROP_CLIENT_ID"])
      && ("RAINDROP_CLIENT_ID" !in env || env["RAINDROP_CLIENT_ID"] == "" ==> creds.clientId == "")
      && ("RAINDROP_CLIENT_SECRET" in env && env["RAINDROP_CLIENT_SECRET"] != "" ==> creds.clientSecret == env["RAINDROP_CLIENT_SECRET"])
      && ("RAINDROP_CLIENT_SECRET" !in env || env["RAINDROP_CLIENT_SECRET"] == "" ==> creds.clientSecret == "")
      && ("RAINDROP_REDIRECT_URI" in env && env["RAINDROP_REDIRECT_URI"] != "" ==> creds.redirectUri == env["RAINDROP_REDIRECT_URI"])
      && ("RAINDROP_REDIRECT_URI" !in env || env["RAINDROP_REDIRECT_URI"] == "" ==> creds.redirectUri == DefaultRedirectUri)
  {
  }

  // ---------------------------------------------------------------- bookmarks

  /** `links.map(link => ({ raindropLink: link }))`. */
  function ToBookmarks(links: seq<RaindropLink>): (bs: seq<Bookmark>)
    ensures |bs| == |links|
    ensures forall i :: 0 <= i < |bs| ==> bs[i] == Bookmark(links[i])
  {
    if links == [] then [] else [Bookmark(links[0])] + ToBookmarks(links[1..])
  }

  /** The links the bookmarks wrap, in order. */
  function LinksOf(bs: seq<Bookmark>): seq<RaindropLink>
  {
    if bs == [] then [] else [bs[0].raindropLink] + LinksOf(bs[1..])
  }

  /** Wrapping loses and reorders nothing: unwrapping gives the links back. */
  lemma {:induction false} BookmarksRoundTrip(links: seq<RaindropLink>)
    ensures LinksOf(ToBookmarks(links)) == links
  {
    if links != [] {
      assert ToBookmarks(links)[1..] == ToBookmarks(links[1..]);
      BookmarksRoundTrip(links[1..]);
    }
  }

  // ---------------------------------------------------------------- batches

  /** The consecutive slices of at most ten bookmarks that the loop saves. */
  function Batches(s: seq<Bookmark>): seq<seq<Bookmark>>
    decreases |s|
  {
    if |s| == 0 then []
    else if |s| <= BatchSize then [s]
    else [s[..BatchSize]] + Batches(s[BatchSize..])
  }

  function Flatten(bs: seq<seq<Bookmark>>): seq<Bookmark>
  {
    if bs == [] then [] else bs[0] + Flatten(bs[1..])
  }

  /** The batches cover the bookmarks exactly once, in order. */
  lemma {:induction false} BatchesCover(s: seq<Bookmark>)
    ensures Flatten(Batches(s)) == s
    decreases |s|
  {
    if |s| == 0 {
    } else if |s| <= BatchSize {
      assert Flatten([s]) == s + Flatten([]);
    } else {
      var bs := Batches(s);
      assert bs[1..] == Batches(s[BatchSize..]);
      BatchesCover(s[BatchSize..]);
      assert s[..BatchSize] + s[BatchSize..] == s;
    }
  }

  /** There are ceil(n / 10) batches. */
  lemma {:induction false} BatchesCount(s: seq<Bookmark>)
    ensures |Batches(s)| == (|s| + BatchSize - 1) / BatchSize
    decreases |s|
  {
    if |s| > BatchSize {
      BatchesCount(s[BatchSize..]);
    }
  }

  lemma SliceOfDrop(s: seq<Bookmark>, d: nat, lo: nat, hi: nat)
    requires d <= |s| && lo <= hi <= |s| - d
    ensures s[d..][lo..hi] == s[lo + d .. hi + d]
  {
  }

  /** Batch `k` is the slice from 10k to 10k + 10, cut at the end of the list:
      so every batch holds one to ten bookmarks and all but the last hold ten. */
  lemma {:induction false} BatchAt(s: seq<Bookmark>)
    ensures var bs := Batches(s);
      forall k :: 0 <= k < |bs| ==>
        && k * BatchSize < |s|
        && bs[k] == s[k * BatchSize .. if (k + 1) * BatchSize <= |s| then (k + 1) * BatchSize else |s|]
        && 1 <= |bs[k]| <= BatchSize
        && (k < |bs| - 1 ==> |bs[k]| == BatchSize)
    decreases |s|
  {
    var bs := Batches(s);
    if |s| > BatchSize {
      var t := s[BatchSize..];
      BatchAt(t);
      BatchesCount(t);
      assert bs == [s[..BatchSize]] + Batches(t);
      forall k | 1 <= k < |bs|
        ensures k * BatchSize < |s|
        ensures bs[k] == s[k * BatchSize .. if (k + 1) * BatchSize <= |s| then (k + 1) * BatchSize else |s|]
      {
        assert bs[k] == Batches(t)[k - 1];
        assert (k - 1) * BatchSize + BatchSize == k * BatchSize;
        assert k * BatchSize + BatchSize == (k + 1) * BatchSize;
        var lo := (k - 1) * BatchSize;
        var hi := if k * BatchSize <= |t| then k * BatchSize else |t|;
        SliceOfDrop(s, BatchSize, lo, hi);
      }
    }
  }

  /** The part of the bookmark list the loop has not reached at index `i`. */
  function From(s: seq<Bookmark>, i: nat): seq<Bookmark>
  {
    if i <= |s| then s[i..] else []
  }

  /** One turn of the loop: the batches left at `i` are the slice at `i`
      followed by the batches left at `i + 10`. */
  lemma BatchesFromStep(s: seq<Bookmark>, i: nat)
    requires i < |s|
    ensures var end := if i + BatchSize <= |s| then i + BatchSize else |s|;
      Batches(From(s, i)) == [s[i..end]] + Batches(From(s, i + BatchSize))
    ensures Batches(From(s, i + BatchSize)) == [] <==> i + BatchSize >= |s|
  {
    var t := s[i..];
    assert From(s, i) == t;
    if |t| <= BatchSize {
      assert Batches(t) == [t];
      assert From(s, i + BatchSize) == [];
      assert Batches(From(s, i + BatchSize)) == [];
      assert s[i..|s|] == t;
    } else {
      assert Batches(t) == [t[..BatchSize]] + Batches(t[BatchSize..]);
      assert t[..BatchSize] == s[i..i + BatchSize];
      assert From(s, i + BatchSize) == t[BatchSize..];
      assert Batches(t[BatchSize..]) != [];
    }
  }

  // ---------------------------------------------------------------- schedule of effects

  /** The effects of the batch loop: each batch saved in turn, with a pause
      between two batches and none after the last. */
  function Schedule(bs: seq<seq<Bookmark>>): seq<Effect>
  {
    if bs == [] then []
    else [SaveBatch(bs[0])] + (if |bs| == 1 then [] else [Pause] + Schedule(bs[1..]))
  }

  /** The batches saved by a run of effects, in order. */
  function SavedBatches(effects: seq<Effect>): seq<seq<Bookmark>>
  {
    if effects == [] then []
    else (if effects[0].SaveBatch? then [effects[0].batch] else []) + SavedBatches(effects[1..])
  }

  function PauseCount(effects: seq<Effect>): nat
  {
    if effects == [] then 0 else (if effects[0].Pause? then 1 else 0) + PauseCount(effects[1..])
  }

  lemma {:induction false} SavedBatchesAppend(a: seq<Effect>, b: seq<Effect>)
    ensures SavedBatches(a + b) == SavedBatches(a) + SavedBatches(b)
  {
    if a == [] {
      assert a + b == b;
    } else {
      assert (a + b)[1..] == a[1..] + b;
      SavedBatchesAppend(a[1..], b);
    }
  }

  /** One turn of the batch loop on the schedule: saving `batch`, then
      pausing when more batches follow, leaves the schedule of `later`. */
  lemma ScheduleStep(batch: seq<Bookmark>, later: seq<seq<Bookmark>>)
    ensures Schedule([batch] + later)
         == [SaveBatch(batch)] + (if later == [] then [] else [Pause]) + Schedule(later)
  {
    assert ([batch] + later)[1..] == later;
    if later == [] {
      assert Schedule([batch] + later) == [SaveBatch(batch)];
    } else {
      assert Schedule([batch] + later) == [SaveBatch(batch)] + ([Pause] + Schedule(later));
    }
  }

  /** Every batch is saved, once, in order; a failing save does not stop the
      ones after it, since the schedule does not depend on the saves' answers. */
  lemma {:induction false} ScheduleSavesEveryBatch(bs: seq<seq<Bookmark>>)
    ensures SavedBatches(Schedule(bs)) == bs
  {
    if bs != [] {
      var tail := if |bs| == 1 then [] else [Pause] + Schedule(bs[1..]);
      SavedBatchesAppend([SaveBatch(bs[0])], tail);
      assert [SaveBatch(bs[0])][1..] == [];
      if |bs| > 1 {
        SavedBatchesAppend([Pause], Schedule(bs[1..]));
        assert [Pause][1..] == [];
        ScheduleSavesEveryBatch(bs[1..]);
      }
      assert bs == [bs[0]] + bs[1..];
    }
  }

  /** `k` batches give `max(0, k - 1)` pauses. */
  lemma {:induction false} SchedulePauses(bs: seq<seq<Bookmark>>)
    ensures PauseCount(Schedule(bs)) == if bs == [] then 0 else |bs| - 1
  {
    if |bs| == 1 {
      assert Schedule(bs) == [SaveBatch(bs[0])];
    } else if |bs| > 1 {
      var e := Schedule(bs);
      assert e[1..] == [Pause] + Schedule(bs[1..]);
      assert e[1..][1..] == Schedule(bs[1..]);
      SchedulePauses(bs[1..]);
    }
  }

  /** Every pause in `e` sits between two batch saves. */
  predicate PausesBetween(e: seq<Effect>)
  {
    forall j :: 0 <= j < |e| && e[j].Pause? ==> 0 < j < |e| - 1 && e[j - 1].SaveBatch? && e[j + 1].SaveBatch?
  }

  /** A pause is always preceded and followed by a batch save. */
  lemma {:induction false} PausesOnlyBetweenBatches(bs: seq<seq<Bookmark>>)
    ensures PausesBetween(Schedule(bs))
  {
    var e := Schedule(bs);
    if |bs| == 1 {
      assert e == [SaveBatch(bs[0])];
    } else if |bs| > 1 {
      var rest := Schedule(bs[1..]);
      PausesOnlyBetweenBatches(bs[1..]);
      assert e == [SaveBatch(bs[0]), Pause] + rest;
      assert rest[0] == SaveBatch(bs[1..][0]);
      forall j | 0 <= j < |e| && e[j].Pause?
        ensures 0 < j < |e| - 1 && e[j - 1].SaveBatch? && e[j + 1].SaveBatch?
      {
        if j == 1 {
          assert e[j + 1] == rest[0];
        } else {
          assert e[j] == rest[j - 2];
          assert rest[j - 2].Pause?;
          assert e[j - 1] == rest[j - 3];
          assert e[j + 1] == rest[j - 1];
        }
      }
    }
  }

  // ---------------------------------------------------------------- totals

  function Plus(a: SaveCounts, b: SaveCounts): SaveCounts
  {
    SaveCounts(a.saved + b.saved, a.skipped + b.skipped)
  }

  /** What a batch adds to the totals: its counts if the save answered, nothing if it threw. */
  function Counted(r: Result<SaveCounts>): SaveCounts
  {
    if r.Ok? then r.value else SaveCounts(0, 0)
  }

  /** The totals over the batches `bs`. */
  function Totals(bs: seq<seq<Bookmark>>, save: BatchSaver): SaveCounts
  {
    if bs == [] then SaveCounts(0, 0) else Plus(Counted(save(bs[0])), Totals(bs[1..], save))
  }

  lemma {:induction false} TotalsAppend(a: seq<seq<Bookmark>>, b: seq<seq<Bookmark>>, save: BatchSaver)
    ensures Totals(a + b, save) == Plus(Totals(a, save), Totals(b, save))
  {
    if a == [] {
      assert a + b == b;
    } else {
      assert (a + b)[1..] == a[1..] + b;
      TotalsAppend(a[1..], b, save);
    }
  }

  /** The totals of a list of batches: the first batch's counts plus the rest's. */
  lemma TotalsCons(batch: seq<Bookmark>, later: seq<seq<Bookmark>>, save: BatchSaver)
    ensures Totals([batch] + later, save) == Plus(Counted(save(batch)), Totals(later, save))
  {
    assert ([batch] + later)[1..] == later;
  }

  lemma TotalsOne(batch: seq<Bookmark>, save: BatchSaver)
    ensures Totals([batch], save) == Counted(save(batch))
  {
    assert [batch][1..] == [];
  }

  /** A batch whose save throws adds nothing to either total. */
  lemma FailedBatchCountsNothing(before: seq<seq<Bookmark>>, batch: seq<Bookmark>, after: seq<seq<Bookmark>>, save: BatchSaver)
    requires save(batch).Err?
    ensures Totals(before + [batch] + after, save) == Totals(before + after, save)
  {
    var a, c := Totals(before, save), Totals(after, save);
    calc {
      Totals(before + [batch] + after, save);
      { TotalsAppend(before + [batch], after, save); }
      Plus(Totals(before + [batch], save), c);
      { TotalsOne(batch, save); TotalsAppend(before, [batch], save); }
      Plus(Plus(a, SaveCounts(0, 0)), c);
      Plus(a, c);
      { TotalsAppend(before, after, save); }
      Totals(before + after, save);
    }
  }

  /** A batch whose save answers adds exactly its counts. */
  lemma SavedBatchCountsItsCounts(before: seq<seq<Bookmark>>, batch: seq<Bookmark>, save: BatchSaver)
    requires save(batch).Ok?
    ensures Totals(before + [batch], save) == Plus(Totals(before, save), save(batch).value)
  {
    TotalsOne(batch, save);
    TotalsAppend(before, [batch], save);
  }

  // ---------------------------------------------------------------- the batch loop

  /** One turn of the batch loop at index `i`: the schedule and the totals
      of the batches left at `i` are those of the slice at `i` followed by
      those of the batches left at `i + 10`. */
  lemma BatchLoopStep(s: seq<Bookmark>, i: nat, save: BatchSaver)
    requires i < |s|
    ensures var batch := s[i..if i + BatchSize <= |s| then i + BatchSize else |s|];
      var later := Batches(From(s, i + BatchSize));
      && Schedule(Batches(From(s, i)))
         == [SaveBatch(batch)] + (if i + BatchSize < |s| then [Pause] else []) + Schedule(later)
      && Totals(Batches(From(s, i)), save).saved == Counted(save(batch)).saved + Totals(later, save).saved
      && Totals(Batches(From(s, i)), save).skipped == Counted(save(batch)).skipped + Totals(later, save).skipped
  {
    var batch := s[i..if i + BatchSize <= |s| then i + BatchSize else |s|];
    var later := Batches(From(s, i + BatchSize));
    BatchesFromStep(s, i);
    ScheduleStep(batch, later);
    TotalsCons(batch, later, save);
  }

  /** The batch loop: bookmarks `i` to `i + 9` are saved at the turn for
      `i`; a batch that throws is skipped; a pause follows a batch when
      another one comes after it. */
  method SaveInBatches(bookmarks: seq<Bookmark>, save: BatchSaver) returns (totalSaved: nat, totalSkipped: nat, effects: seq<Effect>)
    ensures effects == Schedule(Batches(bookmarks))
    ensures SaveCounts(totalSaved, totalSkipped) == Totals(Batches(bookmarks), save)
  {
    totalSaved, totalSkipped := 0, 0;
    effects := [];
    var i: nat := 0;
    ghost var schedule, totals := Schedule(Batches(bookmarks)), Totals(Batches(bookmarks), save);
    assert From(bookmarks, 0) == bookmarks;
    while i < |bookmarks|
      invariant effects + Schedule(Batches(From(bookmarks, i))) == schedule
      invariant totalSaved + Totals(Batches(From(bookmarks, i)), save).saved == totals.saved
      invariant totalSkipped + Totals(Batches(From(bookmarks, i)), save).skipped == totals.skipped
      decreases |bookmarks| - i
    {
      var end := if i + BatchSize <= |bookmarks| then i + BatchSize else |bookmarks|;
      var batch := bookmarks[i..end];
      BatchLoopStep(bookmarks, i, save);
      ghost var before := effects;
      ghost var rest := Schedule(Batches(From(bookmarks, i + BatchSize)));
      effects := effects + [SaveBatch(batch)];
      var r := save(batch);
      if r.Ok? {
        totalSaved := totalSaved + r.value.saved;
        totalSkipped := totalSkipped + r.value.skipped;
      }
      if i + BatchSize < |bookmarks| {
        effects := effects + [Pause];
      }
      assert effects + rest == before + Schedule(Batches(From(bookmarks, i))) by {
        ConcatAssoc(before, [SaveBatch(batch)] + (if i + BatchSize < |bookmarks| then [Pause] else []), rest);
        ConcatAssoc(before, [SaveBatch(batch)], if i + BatchSize < |bookmarks| then [Pause] else []);
      }
      i := i + BatchSize;
    }
    assert Batches(From(bookmarks, i)) == [] by {
      assert From(bookmarks, i) == [];
    }
    assert effects + [] == effects;
  }

  // ---------------------------------------------------------------- the run

  function Remotes(calls: seq<Call>): (es: seq<Effect>)
    ensures |es| == |calls|
    ensures forall j :: 0 <= j < |es| ==> es[j] == Remote(calls[j])
  {
    if calls == [] then [] else [Remote(calls[0])] + Remotes(calls[1..])
  }

  /** The run after the fetch, `w` being what getAllLinks sent and returned
      and `fetched` the effects so far. */
  function AfterFetch(w: Traced<LinksResult>, fetched: seq<Effect>, persisted: Outcome, save: BatchSaver): Run
  {
    match w.result
    case Err(m) => Run(Exited(m), fetched)
    case Ok(result) =>
      var persist := if result.updatedTokens.Some? then [PersistTokens(result.updatedTokens.value)] else [];
      if result.updatedTokens.Some? && persisted.Fail? then Run(Exited(persisted.message), fetched + persist)
      else
        var bs := Batches(ToBookmarks(result.links));
        var totals := Totals(bs, save);
        Run(Completed(result, totals.saved, totals.skipped), fetched + persist + Schedule(bs))
  }

  /** The whole run. `stored` is what loadTokens yields (an error, no file,
      or a token set), `dbInit` and `persisted` how initializeBookmarkDb and
      saveTokens end. */
  function FetchLinksRun(env: map<string, string>, stored: Result<Option<AuthTokens>>, dbInit: Outcome,
                         clock: nat -> int, post: TokenEndpoint, get: ListEndpoint,
                         persisted: Outcome, save: BatchSaver): Run
  {
    match stored
    case Err(m) => Run(Exited(m), [])
    case Ok(None) => Run(Exited(NoTokensMessage), [])
    case Ok(Some(tokens)) =>
      if dbInit.Fail? then Run(Exited(dbInit.message), [InitDb])
      else
        var w := Walk(PageFetcher(CredentialsFromEnv(env), clock, post, get), 0, tokens, None, []);
        AfterFetch(w, [InitDb] + Remotes(w.calls), persisted, save)
  }

  method FetchLinks(env: map<string, string>, stored: Result<Option<AuthTokens>>, dbInit: Outcome,
                    clock: nat -> int, post: TokenEndpoint, get: ListEndpoint,
                    persisted: Outcome, save: BatchSaver)
    returns (outcome: RunOutcome, effects: seq<Effect>)
    ensures Run(outcome, effects) == FetchLinksRun(env, stored, dbInit, clock, post, get, persisted, save)
  {
    var creds := CredentialsFromEnv(env);
    effects := [];
    if stored.Err? {
      return Exited(stored.message), effects;
    }
    if stored.value.None? {
      return Exited(NoTokensMessage), effects;
    }
    var tokens := stored.value.value;
    if dbInit.Fail? {
      return Exited(dbInit.message), [InitDb];
    }
    var r, calls := GetAllLinks(creds, tokens, clock, post, get);
    ghost var w := Traced(r, calls);
    assert FetchLinksRun(env, stored, dbInit, clock, post, get, persisted, save)
           == AfterFetch(w, [InitDb] + Remotes(calls), persisted, save);
    effects := [InitDb] + Remotes(calls);
    if r.Err? {
      return Exited(r.message), effects;
    }
    var result := r.value;
    var persist: seq<Effect> := [];
    if result.updatedTokens.Some? {
      persist := [PersistTokens(result.updatedTokens.value)];
      if persisted.Fail? {
        return Exited(persisted.message), effects + persist;
      }
    }
    var bookmarks := ToBookmarks(result.links);
    var totalSaved, totalSkipped, saves := SaveInBatches(bookmarks, save);
    effects := effects + persist + saves;
    outcome := Completed(result, totalSaved, totalSkipped);
  }

  // ---------------------------------------------------------------- properties of the run

  /** Without a stored token set the run exits before any database work or request. */
  lemma NoTokensNoWork(env: map<string, string>, stored: Result<Option<AuthTokens>>, dbInit: Outcome,
                       clock: nat -> int, post: TokenEndpoint, get: ListEndpoint, persisted: Outcome, save: BatchSaver)
    requires !(stored.Ok? && stored.value.Some?)
    ensures var run := FetchLinksRun(env, stored, dbInit, clock, post, get, persisted, save);
      run.outcome.Exited? && run.effects == []
      && (stored.Ok? ==> run.outcome.message == NoTokensMessage)
  {
  }

  /** With a stored token set the database is opened first, and every
      request of the fetch comes after it, in the order sent. */
  lemma InitDbBeforeFetch(env: map<string, string>, tokens: AuthTokens, dbInit: Outcome,
                          clock: nat -> int, post: TokenEndpoint, get: ListEndpoint, persisted: Outcome, save: BatchSaver)
    ensures var run := FetchLinksRun(env, Ok(Some(tokens)), dbInit, clock, post, get, persisted, save);
      var w := Walk(PageFetcher(CredentialsFromEnv(env), clock, post, get), 0, tokens, None, []);
      && |run.effects| >= 1 && run.effects[0] == InitDb
      && (dbInit.Pass? ==> run.effects[1..] [..|w.calls|] == Remotes(w.calls))
      && (dbInit.Fail? ==> run == Run(Exited(dbInit.message), [InitDb]))
  {
    if dbInit.Pass? {
      var w := Walk(PageFetcher(CredentialsFromEnv(env), clock, post, get), 0, tokens, None, []);
      AfterFetchExtends(w, [InitDb] + Remotes(w.calls), persisted, save);
    }
  }

  lemma AfterFetchExtends(w: Traced<LinksResult>, fetched: seq<Effect>, persisted: Outcome, save: BatchSaver)
    ensures fetched <= AfterFetch(w, fetched, persisted, save).effects
  {
  }

  /** The refreshed token set is persisted exactly when the fetch `w`
      succeeded and reported one, and it is that set that is persisted;
      when it is, it is persisted before any batch is saved. */
  predicate PersistsBeforeSaving(e: seq<Effect>, w: Traced<LinksResult>)
  {
    && ((exists j :: 0 <= j < |e| && e[j].PersistTokens?) <==> w.result.Ok? && w.result.value.updatedTokens.Some?)
    && (forall j :: 0 <= j < |e| && e[j].PersistTokens? ==> w.result.Ok? && e[j].tokens == w.result.value.updatedTokens.value)
    && (forall j, k :: 0 <= j < |e| && 0 <= k < |e| && e[j].PersistTokens? && e[k].SaveBatch? ==> j < k)
  }

  lemma {:induction false} TokensPersistedBeforeSaves(w: Traced<LinksResult>, fetched: seq<Effect>, persisted: Outcome, save: BatchSaver)
    requires forall j :: 0 <= j < |fetched| ==> !fetched[j].PersistTokens? && !fetched[j].SaveBatch?
    ensures PersistsBeforeSaving(AfterFetch(w, fetched, persisted, save).effects, w)
  {
    var e := AfterFetch(w, fetched, persisted, save).effects;
    if w.result.Ok? {
      var result := w.result.value;
      var persist := if result.updatedTokens.Some? then [PersistTokens(result.updatedTokens.value)] else [];
      var bs := Batches(ToBookmarks(result.links));
      var sched := if result.updatedTokens.Some? && persisted.Fail? then [] else Schedule(bs);
      assert e == fetched + persist + sched;
      ScheduleHasNoPersist(bs);
      forall j | 0 <= j < |fetched|
        ensures !e[j].PersistTokens? && !e[j].SaveBatch?
      {
        assert e[j] == fetched[j];
      }
      forall j | |fetched| <= j < |fetched| + |persist|
        ensures e[j] == PersistTokens(result.updatedTokens.value)
      {
        assert e[j] == persist[j - |fetched|];
      }
      forall j | |fetched| + |persist| <= j < |e|
        ensures !e[j].PersistTokens?
      {
        assert e[j] == sched[j - |fetched| - |persist|];
      }
      if result.updatedTokens.Some? {
        assert e[|fetched|].PersistTokens?;
      }
    } else {
      assert e == fetched;
    }
  }

  lemma {:induction false} ScheduleHasNoPersist(bs: seq<seq<Bookmark>>)
    ensures forall j :: 0 <= j < |Schedule(bs)| ==> !Schedule(bs)[j].PersistTokens?
  {
    if |bs| > 1 {
      ScheduleHasNoPersist(bs[1..]);
      var e := Schedule(bs);
      assert e == [SaveBatch(bs[0]), Pause] + Schedule(bs[1..]);
    }
  }

  /** A run that completes saves every fetched link as a bookmark, in batches
      of at most ten that cover the list once and in order, and reports the
      totals of the batches whose save answered. */
  lemma CompletedRunSavesEveryLink(w: Traced<LinksResult>, fetched: seq<Effect>, persisted: Outcome, save: BatchSaver)
    requires SavedBatches(fetched) == []
    ensures var run := AfterFetch(w, fetched, persisted, save);
      run.outcome.Completed? ==>
        var bs := Batches(ToBookmarks(run.outcome.result.links));
        && run.outcome.result == w.result.value
        && SavedBatches(run.effects) == bs
        && Flatten(bs) == ToBookmarks(w.result.value.links)
        && SaveCounts(run.outcome.totalSaved, run.outcome.totalSkipped) == Totals(bs, save)
  {
    var run := AfterFetch(w, fetched, persisted, save);
    if run.outcome.Completed? {
      var result := w.result.value;
      var persist := if result.updatedTokens.Some? then [PersistTokens(result.updatedTokens.value)] else [];
      var bs := Batches(ToBookmarks(result.links));
      assert run.effects == fetched + persist + Schedule(bs);
      SavedBatchesAppend(fetched + persist, Schedule(bs));
      SavedBatchesAppend(fetched, persist);
      assert SavedBatches(persist) == [] by {
        if persist != [] {
          assert persist[1..] == [];
        }
      }
      ScheduleSavesEveryBatch(bs);
      BatchesCover(ToBookmarks(result.links));
    }
  }

  lemma {:induction false} RemotesSaveNothing(calls: seq<Call>)
    ensures SavedBatches(Remotes(calls)) == []
  {
    if calls != [] {
      assert Remotes(calls)[1..] == Remotes(calls[1..]);
      RemotesSaveNothing(calls[1..]);
    }
  }

  /** The run as a whole: once the database is open, the refreshed token set
      is persisted before any batch is saved; and a run that completes
      returns what getAllLinks returned, saves every fetched link once and
      in order, and reports the totals of the batches whose save answered. */
  lemma RunPersistsThenSavesEveryLink(env: map<string, string>, tokens: AuthTokens,
                                      clock: nat -> int, post: TokenEndpoint, get: ListEndpoint,
                                      persisted: Outcome, save: BatchSaver)
    ensures var run := FetchLinksRun(env, Ok(Some(tokens)), Pass, clock, post, get, persisted, save);
      var w := Walk(PageFetcher(CredentialsFromEnv(env), clock, post, get), 0, tokens, None, []);
      && PersistsBeforeSaving(run.effects, w)
      && (run.outcome.Completed? ==>
            && w.result.Ok? && run.outcome.result == w.result.value
            && SavedBatches(run.effects) == Batches(ToBookmarks(w.result.value.links))
            && SaveCounts(run.outcome.totalSaved, run.outcome.totalSkipped)
               == Totals(Batches(ToBookmarks(w.result.value.links)), save))
  {
    var w := Walk(PageFetcher(CredentialsFromEnv(env), clock, post, get), 0, tokens, None, []);
    var fetched := [InitDb] + Remotes(w.calls);
    forall j | 0 <= j < |fetched| ensures !fetched[j].PersistTokens? && !fetched[j].SaveBatch? {
      if j > 0 {
        assert fetched[j] == Remotes(w.calls)[j - 1];
      }
    }
    TokensPersistedBeforeSaves(w, fetched, persisted, save);
    RemotesSaveNothing(w.calls);
    SavedBatchesAppend([InitDb], Remotes(w.calls));
    assert SavedBatches([InitDb]) == [] by {
      assert [InitDb][1..] == [];
    }
    CompletedRunSavesEveryLink(w, fetched, persisted, save);
  }
}
