/** internal/app/auth.go: credentials cached under the stamp of their file. A `World` holds the
    functions the model leaves open, an `Env` what one call meets: the clock, the refresh
    endpoint, the file system, and what other writers do to the file in the middle of the call. */
module CredentialCache {
  import opened Prelude

  datatype Stamp = Stamp(modTime: int, size: nat)

  /** An absent string is the empty string. */
  datatype Tokens = Tokens(access: string, refresh: string, id: string, account: string)

  datatype Content = InvalidJson | OtherMode | Login(tokens: Tokens)

  datatype File = File(stamp: Stamp, content: Content)

  datatype Credentials = Credentials(accessToken: string, accountId: string)

  datatype CacheEntry = CacheEntry(stamp: Stamp, cred: Credentials, exp: Option<real>)

  datatype Failure = FileNotFound | Unreadable | InvalidFile | UnsupportedMode | MissingAccessToken
    | ExpiredWithoutRefresh | RefreshFailed | WriteFailed

  datatype Result = Lent(cred: Credentials) | Failed(failure: Failure)

  /** Reading a token's expiry and a login's account id. */
  datatype World = World(expiry: string -> Option<real>, accountOf: Tokens -> string)

  /** In an answer, a value that is absent or null keeps the old one; any other replaces it. */
  datatype Refresh = NoTokens | NewTokens(access: string, refresh: Option<string>, id: Option<string>)

  datatype Saving = NotWritten | Saved(stamp: Stamp)

  /** `visible`: the file's stamp can be read; `readable`: its contents. `swapped`: another writer
      replaces the file after its stamp was read. `overwritten`: another writer replaces it after
      the refreshed login was saved, before its stamp is read. */
  datatype Env = Env(now: int, visible: bool, readable: bool, refresh: Refresh, saving: Saving, inspectable: bool,
                     swapped: Option<File>, overwritten: Option<File>)

  // ------------------------------------------------------------------ specification

  predicate Fresh(exp: Option<real>, now: int) {
    exp.None? || now as real < exp.value - 30.0
  }

  function CredOf(w: World, tokens: Tokens): Credentials {
    Credentials(tokens.access, w.accountOf(tokens))
  }

  function EntryFor(w: World, stamp: Stamp, tokens: Tokens): CacheEntry {
    CacheEntry(stamp, CredOf(w, tokens), w.expiry(tokens.access))
  }

  function Or(value: Option<string>, fallback: string): string {
    if value.Some? then value.value else fallback
  }

  function Merged(tokens: Tokens, fetched: Refresh): Tokens
    requires fetched.NewTokens?
  {
    tokens.(access := fetched.access, refresh := Or(fetched.refresh, tokens.refresh), id := Or(fetched.id, tokens.id))
  }

  /** What a call leaves: the file, its answer, and the entry it would cache. */
  datatype Outcome = Outcome(file: Option<File>, result: Result, entry: Option<CacheEntry>)

  /** A login whose token has run out is refreshed and saved. */
  function Renewed(w: World, file: File, tokens: Tokens, env: Env): Outcome {
    if tokens.refresh == "" then Outcome(Some(file), Failed(ExpiredWithoutRefresh), None)
    else if env.refresh.NoTokens? || env.refresh.access == "" then Outcome(Some(file), Failed(RefreshFailed), None)
    else if env.saving.NotWritten? then Outcome(Some(file), Failed(WriteFailed), None)
    else
      var renewed := Merged(tokens, env.refresh);
      var saved := File(env.saving.stamp, Login(renewed));
      var left := if env.overwritten.Some? then env.overwritten.value else saved;
      if !env.inspectable then Outcome(Some(left), Failed(WriteFailed), None)
      else Outcome(Some(left), Lent(CredOf(w, renewed)), Some(EntryFor(w, left.stamp, renewed)))
  }

  /** Borrowing without a cache. */
  function Uncached(w: World, file: Option<File>, env: Env): Outcome {
    if !env.visible then Outcome(file, Failed(Unreadable), None)
    else if file.None? then Outcome(None, Failed(FileNotFound), None)
    else
      var read := if env.swapped.Some? then env.swapped.value else file.value;
      if !env.readable then Outcome(Some(read), Failed(Unreadable), None)
      else match read.content
        case InvalidJson => Outcome(Some(read), Failed(InvalidFile), None)
        case OtherMode => Outcome(Some(read), Failed(UnsupportedMode), None)
        case Login(tokens) =>
          if tokens.access == "" then Outcome(Some(read), Failed(MissingAccessToken), None)
          else if Fresh(w.expiry(tokens.access), env.now) then
            Outcome(Some(read), Lent(CredOf(w, tokens)), Some(EntryFor(w, file.value.stamp, tokens)))
          else Renewed(w, read, tokens, env)
  }

  predicate Hits(cache: Option<CacheEntry>, file: Option<File>, env: Env) {
    && env.visible && cache.Some? && file.Some?
    && cache.value.stamp == file.value.stamp && Fresh(cache.value.exp, env.now)
  }

  /** The file after its stamp was read. */
  function Swapped(file: Option<File>, env: Env): Option<File> {
    if env.swapped.Some? then env.swapped else file
  }

  // ------------------------------------------------------------------ the code's form

  class AuthProvider {
    const world: World
    var file: Option<File>
    var cache: Option<CacheEntry>

    constructor (world: World, file: Option<File>)
      ensures this.world == world && this.file == file && cache == None
    {
      this.world, this.file, cache := world, file, None;
    }

    /** `invalidate` */
    method Invalidate()
      modifies this`cache
      ensures cache == None
    {
      cache := None;
    }

    /** `borrow` */
    method Borrow(env: Env) returns (result: Result)
      modifies this
      ensures var fetched := Uncached(world, old(file), env);
        if Hits(old(cache), old(file), env) then
          result == Lent(old(cache).value.cred) && file == Swapped(old(file), env) && cache == old(cache)
        else
          && result == fetched.result && file == fetched.file
          && cache == if fetched.entry.Some? then fetched.entry else old(cache)
    {
      if !env.visible {
        return Failed(Unreadable);
      }
      if file.None? {
        return Failed(FileNotFound);
      }
      var stamp := file.value.stamp;
      if env.swapped.Some? {
        file := env.swapped;
      }
      if cache.Some? && cache.value.stamp == stamp && Fresh(cache.value.exp, env.now) {
        return Lent(cache.value.cred);
      }
      if !env.readable {
        return Failed(Unreadable);
      }
      match file.value.content {
        case InvalidJson =>
          return Failed(InvalidFile);
        case OtherMode =>
          return Failed(UnsupportedMode);
        case Login(found) =>
          var tokens := found;
          if tokens.access == "" {
            return Failed(MissingAccessToken);
          }
          var exp := world.expiry(tokens.access);
          if !Fresh(exp, env.now) {
            if tokens.refresh == "" {
              return Failed(ExpiredWithoutRefresh);
            }
            if env.refresh.NoTokens? || env.refresh.access == "" {
              return Failed(RefreshFailed);
            }
            tokens := Merged(tokens, env.refresh);
            if env.saving.NotWritten? {
              return Failed(WriteFailed);
            }
            file := Some(File(env.saving.stamp, Login(tokens)));
            if env.overwritten.Some? {
              file := env.overwritten;
            }
            if !env.inspectable {
              return Failed(WriteFailed);
            }
            stamp := file.value.stamp;
            exp := world.expiry(tokens.access);
          }
          var cred := CredOf(world, tokens);
          cache := Some(CacheEntry(stamp, cred, exp));
          result := Lent(cred);
      }
    }

    /** `reload`: whatever the cache holds, the file is read again. The lock is free between its
        two sections, and `between` is what others do there. */
    method Reload(between: seq<Event>, env: Env) returns (result: Result)
      modifies this
      ensures var r := RunFrom(world, Run(old(file), None, []), between + [BorrowAt(env)]);
        file == r.file && cache == r.cache && r.results != [] && result == Last(r.results)
    {
      ghost var start := Run(file, None, []);
      ghost var r := start;
      Invalidate();
      for i := 0 to |between|
        invariant r == RunFrom(world, start, between[..i]) && file == r.file && cache == r.cache
      {
        PrefixUnfolds(between, i);
        r := RunFrom(world, start, between[..i + 1]);
        match between[i] {
          case Write(written) =>
            file := written;
          case InvalidateNow =>
            Invalidate();
          case BorrowAt(other) =>
            var _ := Borrow(other);
        }
      }
      assert between[..|between|] == between && DropLast(between + [BorrowAt(env)]) == between;
      result := Borrow(env);
    }
  }

  // ------------------------------------------------------------------ spelled out

  /** The token of a login runs out 30 seconds early, if it says when. */
  predicate RunOut(w: World, access: string, now: int) {
    w.expiry(access).Some? && w.expiry(access).value - 30.0 <= now as real
  }

  /** A file that can be read and holds a login with a token is lent as it is while that has not
      run out; and the file stays. */
  lemma GoodLoginsAreLent(w: World, file: File, env: Env)
    requires env.visible && env.readable && Read(file, env).Login? && Read(file, env).tokens.access != ""
    requires !RunOut(w, Read(file, env).tokens.access, env.now)
    ensures var o, tokens := Uncached(w, Some(file), env), Read(file, env).tokens;
      o.result == Lent(Credentials(tokens.access, w.accountOf(tokens))) && o.file == Swapped(Some(file), env)
  {
  }

  /** One that has run out is refreshed: the login saved and lent has the new token, and the new
      refresh and id tokens where there are any. */
  lemma RunOutLoginsAreRefreshed(w: World, file: File, env: Env)
    requires env.visible && env.readable && Read(file, env).Login? && Read(file, env).tokens.access != ""
    requires RunOut(w, Read(file, env).tokens.access, env.now)
    requires Read(file, env).tokens.refresh != "" && env.refresh.NewTokens? && env.refresh.access != ""
    requires env.saving.Saved? && env.inspectable
    ensures var o, was := Uncached(w, Some(file), env), Read(file, env).tokens;
      var fetched := env.refresh;
      var tokens := Tokens(fetched.access,
                           if fetched.refresh.Some? then fetched.refresh.value else was.refresh,
                           if fetched.id.Some? then fetched.id.value else was.id, was.account);
      && o.result == Lent(Credentials(fetched.access, w.accountOf(tokens)))
      && o.file == (if env.overwritten.Some? then env.overwritten else Some(File(env.saving.stamp, Login(tokens))))
      && o.entry.Some? && o.entry.value.stamp == o.file.value.stamp
  {
  }

  /** In every other case the call fails, and says why. */
  lemma WhyBorrowsFail(w: World, file: Option<File>, env: Env)
    ensures var result := Uncached(w, file, env).result;
      && (!env.visible ==> result == Failed(Unreadable))
      && (env.visible && file.None? ==> result == Failed(FileNotFound))
      && (env.visible && file.Some? && !env.readable ==> result == Failed(Unreadable))
      && (env.visible && file.Some? && env.readable ==>
            match Read(file.value, env)
            case InvalidJson => result == Failed(InvalidFile)
            case OtherMode => result == Failed(UnsupportedMode)
            case Login(tokens) =>
              && (tokens.access == "" ==> result == Failed(MissingAccessToken))
              && (tokens.access != "" && RunOut(w, tokens.access, env.now) ==>
                    && (tokens.refresh == "" ==> result == Failed(ExpiredWithoutRefresh))
                    && (tokens.refresh != "" && (env.refresh.NoTokens? || env.refresh.access == "") ==>
                          result == Failed(RefreshFailed))
                    && (tokens.refresh != "" && env.refresh.NewTokens? && env.refresh.access != "" ==>
                          env.saving.NotWritten? || !env.inspectable ==> result == Failed(WriteFailed))))
  {
  }

  // ------------------------------------------------------------------ runs

  /** A reload is an `InvalidateNow` and, some time after it, a `BorrowAt`. */
  datatype Event = Write(file: Option<File>) | BorrowAt(env: Env) | InvalidateNow

  datatype Run = Run(file: Option<File>, cache: Option<CacheEntry>, results: seq<Result>)

  /** `AuthProvider.Borrow` on values. */
  function BorrowStep(w: World, r: Run, env: Env): Run {
    if Hits(r.cache, r.file, env) then
      r.(file := Swapped(r.file, env), results := r.results + [Lent(r.cache.value.cred)])
    else
      var fetched := Uncached(w, r.file, env);
      Run(fetched.file, if fetched.entry.Some? then fetched.entry else r.cache, r.results + [fetched.result])
  }

  function RunFrom(w: World, start: Run, events: seq<Event>): Run {
    if events == [] then start
    else
      var r := RunFrom(w, start, DropLast(events));
      match Last(events)
      case Write(file) => r.(file := file)
      case BorrowAt(env) => BorrowStep(w, r, env)
      case InvalidateNow => r.(cache := None)
  }

  function CachedRun(w: World, events: seq<Event>): Run {
    RunFrom(w, Run(None, None, []), events)
  }

  /** The same run without a cache. */
  function UncachedRun(w: World, events: seq<Event>): Run {
    if events == [] then Run(None, None, [])
    else
      var r := UncachedRun(w, DropLast(events));
      match Last(events)
      case Write(file) => r.(file := file)
      case BorrowAt(env) => var o := Uncached(w, r.file, env); Run(o.file, None, r.results + [o.result])
      case InvalidateNow => r
  }

  /** Equal stamps mean equal contents. */
  predicate Honest(contents: Stamp -> Content, file: Option<File>) {
    file.None? || file.value.content == contents(file.value.stamp)
  }

  /** An entry says what every file with its stamp says. */
  predicate Sound(w: World, contents: Stamp -> Content, entry: CacheEntry) {
    && contents(entry.stamp).Login?
    && contents(entry.stamp).tokens.access != ""
    && entry == EntryFor(w, entry.stamp, contents(entry.stamp).tokens)
  }

  predicate SameLogin(w: World, content: Content, cred: Credentials) {
    content.Login? && content.tokens.access != "" && CredOf(w, content.tokens) == cred
  }

  /** The login a call finds in the file. */
  function Read(file: File, env: Env): Content {
    Swapped(Some(file), env).value.content
  }

  /** What a call that reads the file caches is the login of the file whose stamp it took: the one
      it saw before another writer replaced it, or the one left after its own save. */
  predicate FillsSoundly(w: World, file: File, env: Env) {
    Read(file, env).Login? ==>
      var tokens := Read(file, env).tokens;
      if Fresh(w.expiry(tokens.access), env.now) then SameLogin(w, file.content, CredOf(w, tokens))
      else env.overwritten.Some? && env.refresh.NewTokens? ==>
        SameLogin(w, env.overwritten.value.content, CredOf(w, Merged(tokens, env.refresh)))
  }

  /** A call that fills the cache does so soundly exactly then. */
  lemma DisturbedFills(w: World, contents: Stamp -> Content, file: File, env: Env)
    requires Honest(contents, Some(file)) && Uncached(w, Some(file), env).entry.Some?
    requires Fresh(w.expiry(Read(file, env).tokens.access), env.now) ||
      Honest(contents, Uncached(w, Some(file), env).file)
    ensures Sound(w, contents, Uncached(w, Some(file), env).entry.value) <==> FillsSoundly(w, file, env)
  {
  }

  /** A call that is lent the cached login would be lent it by the file. */
  predicate HitsSoundly(w: World, cred: Credentials, env: Env) {
    && env.readable
    && (env.swapped.Some? ==>
          && SameLogin(w, env.swapped.value.content, cred)
          && Fresh(w.expiry(env.swapped.value.content.tokens.access), env.now))
  }

  /** While nobody replaces the file meanwhile, exactly when the file can be read. */
  lemma HitsAgree(w: World, contents: Stamp -> Content, r: Run, env: Env)
    requires Hits(r.cache, r.file, env) && Sound(w, contents, r.cache.value) && Honest(contents, r.file)
    ensures HitsSoundly(w, r.cache.value.cred, env) ==>
      var o := Uncached(w, r.file, env); o.result == Lent(r.cache.value.cred) && o.file == Swapped(r.file, env)
    ensures env.swapped.None? ==>
      (Uncached(w, r.file, env).result == Lent(r.cache.value.cred) <==> HitsSoundly(w, r.cache.value.cred, env))
  {
  }

  predicate Harmless(w: World, r: Run, env: Env) {
    if Hits(r.cache, r.file, env) then HitsSoundly(w, r.cache.value.cred, env)
    else r.file.Some? && Uncached(w, r.file, env).entry.Some? ==> FillsSoundly(w, r.file.value, env)
  }

  /** Whatever other writers do in the middle of its calls, each of them is harmless. */
  ghost predicate HonestRun(w: World, contents: Stamp -> Content, events: seq<Event>) {
    events != [] ==>
      && HonestRun(w, contents, DropLast(events))
      && Honest(contents, CachedRun(w, events).file)
      && match Last(events)
         case BorrowAt(env) => Harmless(w, CachedRun(w, DropLast(events)), env)
         case _ => true
  }

  /** When equal stamps mean equal contents, every borrow of every run of writes, clock steps,
      invalidations, reloads, refreshes and harmless disturbances answers what reading the file
      would. */
  lemma {:induction false} CacheIsCoherent(w: World, contents: Stamp -> Content, events: seq<Event>)
    requires HonestRun(w, contents, events)
    ensures var r, u := CachedRun(w, events), UncachedRun(w, events);
      && r.results == u.results && r.file == u.file
      && (r.cache.Some? ==> Sound(w, contents, r.cache.value))
  {
    if events != [] {
      var p := DropLast(events);
      CacheIsCoherent(w, contents, p);
      var r := CachedRun(w, p);
      assert p != [] ==> Honest(contents, r.file);
      match Last(events) {
        case BorrowAt(env) =>
          StepIsCoherent(w, contents, r, env);
        case Write(_) =>
        case InvalidateNow =>
      }
    }
  }

  lemma StepIsCoherent(w: World, contents: Stamp -> Content, r: Run, env: Env)
    requires Honest(contents, r.file) && Harmless(w, r, env) && Honest(contents, BorrowStep(w, r, env).file)
    requires r.cache.Some? ==> Sound(w, contents, r.cache.value)
    ensures var next, o := BorrowStep(w, r, env), Uncached(w, r.file, env);
      && next.results == r.results + [o.result] && next.file == o.file
      && (next.cache.Some? ==> Sound(w, contents, next.cache.value))
  {
    if Hits(r.cache, r.file, env) {
      HitsAgree(w, contents, r, env);
    } else if Uncached(w, r.file, env).entry.Some? {
      DisturbedFills(w, contents, r.file.value, env);
    }
  }

  /** The file can be read, and nobody else touches it during the call. */
  predicate Undisturbed(env: Env) {
    env.visible && env.readable && env.swapped.None? && env.overwritten.None?
  }

  /** Which is always harmless. */
  lemma UndisturbedIsHarmless(w: World, r: Run, env: Env)
    requires Undisturbed(env)
    ensures Harmless(w, r, env)
  {
  }

  /** A cached login is lent on while the file cannot be read, where reading it would fail. */
  lemma UnreadableFileIsMissed()
    ensures var file := File(Stamp(1, 1), Login(Tokens("ours", "", "", "a")));
      var events := [Write(Some(file)), BorrowAt(CALM), BorrowAt(CALM.(readable := false))];
      && CachedRun(SAMPLE, events).results == [Lent(Credentials("ours", "a")), Lent(Credentials("ours", "a"))]
      && UncachedRun(SAMPLE, events).results == [Lent(Credentials("ours", "a")), Failed(Unreadable)]
  {
    var file := File(Stamp(1, 1), Login(Tokens("ours", "", "", "a")));
    var one: seq<Event> := [Write(Some(file))];
    var two := [Write(Some(file)), BorrowAt(CALM)];
    var three := [Write(Some(file)), BorrowAt(CALM), BorrowAt(CALM.(readable := false))];
    assert DropLast(three) == two && DropLast(two) == one && DropLast(one) == [];
    assert RunFrom(SAMPLE, Run(None, None, []), []) == Run(None, None, []);
    assert CachedRun(SAMPLE, one) == UncachedRun(SAMPLE, one) == Run(Some(file), None, []);
    var tokens := Tokens("ours", "", "", "a");
    assert CachedRun(SAMPLE, two)
        == Run(Some(file), Some(EntryFor(SAMPLE, file.stamp, tokens)), [Lent(Credentials("ours", "a"))]);
    assert UncachedRun(SAMPLE, two) == Run(Some(file), None, [Lent(Credentials("ours", "a"))]);
  }

  /** Without that assumption: after an invalidation, the next borrow reads the file, whatever
      was written in between. */
  lemma BorrowAfterInvalidate(w: World, events: seq<Event>, file: Option<File>, env: Env)
    ensures var before := CachedRun(w, events);
      var r := CachedRun(w, events + [InvalidateNow, Write(file), BorrowAt(env)]);
      r.results == before.results + [Uncached(w, file, env).result] && r.file == Uncached(w, file, env).file
  {
    var invalidated, written := events + [InvalidateNow], events + [InvalidateNow, Write(file)];
    var all := events + [InvalidateNow, Write(file), BorrowAt(env)];
    assert DropLast(all) == written && DropLast(written) == invalidated && DropLast(invalidated) == events;
    assert CachedRun(w, invalidated).cache == None;
    assert CachedRun(w, written) == CachedRun(w, invalidated).(file := file);
  }

  /** The `i`th event read the file and would fill the cache with this entry, if with any. */
  ghost predicate ReadAt(w: World, file: Option<File>, since: seq<Event>, i: int, result: Result,
                         entry: Option<CacheEntry>) {
    && 0 <= i < |since| && since[i].BorrowAt?
    && var o := Uncached(w, RunFrom(w, Run(file, None, []), since[..i]).file, since[i].env);
       o.result == result && o.entry == entry
  }

  /** What the cache holds some time after it was invalidated was read since. */
  lemma {:induction false} CachedSinceInvalidation(w: World, file: Option<File>, since: seq<Event>)
    ensures var cache := RunFrom(w, Run(file, None, []), since).cache;
      cache.Some? ==> exists i :: ReadAt(w, file, since, i, Lent(cache.value.cred), cache)
  {
    var start := Run(file, None, []);
    var cache := RunFrom(w, start, since).cache;
    if since != [] && cache.Some? {
      var p := DropLast(since);
      var r := RunFrom(w, start, p);
      if r.cache == cache {
        CachedSinceInvalidation(w, file, p);
        var i :| ReadAt(w, file, p, i, Lent(cache.value.cred), cache);
        assert since[..i] == p[..i];
        assert ReadAt(w, file, since, i, Lent(cache.value.cred), cache);
      } else {
        assert since[..|p|] == p;
        assert ReadAt(w, file, since, |p|, Lent(cache.value.cred), cache);
      }
    }
  }

  /** A reload answers what reading the file answers, at its own borrow or at that of another
      caller since the invalidation: never what was cached before. */
  lemma ReloadReadsTheFile(w: World, file: Option<File>, between: seq<Event>, env: Env)
    ensures var since := between + [BorrowAt(env)];
      var results := RunFrom(w, Run(file, None, []), since).results;
      results != [] && exists i, entry :: ReadAt(w, file, since, i, Last(results), entry)
    ensures between == [] ==>
      RunFrom(w, Run(file, None, []), [BorrowAt(env)]).results == [Uncached(w, file, env).result]
  {
    var start, since := Run(file, None, []), between + [BorrowAt(env)];
    assert DropLast(since) == between == since[..|between|];
    var r := RunFrom(w, start, between);
    assert RunFrom(w, start, since) == BorrowStep(w, r, env);
    if Hits(r.cache, r.file, env) {
      assert Last(RunFrom(w, start, since).results) == Lent(r.cache.value.cred);
      CachedSinceInvalidation(w, file, between);
      var i :| ReadAt(w, file, between, i, Lent(r.cache.value.cred), r.cache);
      assert since[..i] == between[..i];
      assert ReadAt(w, file, since, i, Lent(r.cache.value.cred), r.cache);
    } else {
      var o := Uncached(w, r.file, env);
      assert Last(RunFrom(w, start, since).results) == o.result;
      assert ReadAt(w, file, since, |between|, o.result, o.entry);
    }
  }

  // ------------------------------------------------------------------ expiry

  predicate Dated(w: World, cache: Option<CacheEntry>) {
    cache.Some? ==> cache.value.exp == w.expiry(cache.value.cred.accessToken)
  }

  lemma FilledEntriesAreDated(w: World, file: Option<File>, env: Env)
    ensures Dated(w, Uncached(w, file, env).entry)
  {
  }

  /** The cached expiry is that of the cached token, on any run at all. */
  lemma {:induction false} CachedExpiryIsTheTokens(w: World, events: seq<Event>)
    ensures Dated(w, CachedRun(w, events).cache)
  {
    if events != [] {
      var p := DropLast(events);
      CachedExpiryIsTheTokens(w, p);
      match Last(events) {
        case BorrowAt(env) =>
          FilledEntriesAreDated(w, CachedRun(w, p).file, env);
        case Write(_) =>
        case InvalidateNow =>
      }
    }
  }

  predicate LentFresh(w: World, result: Result, env: Env) {
    result.Lent? ==>
      w.expiry(result.cred.accessToken).None? ||
      (env.now as real) < w.expiry(result.cred.accessToken).value - 30.0 ||
      (env.refresh.NewTokens? && result.cred.accessToken == env.refresh.access)
  }

  /** Whatever writers do and wherever the calls are disturbed, no borrow lends a token that has
      run out, unless the refresh endpoint handed it out in that very call. */
  lemma NoExpiredTokenIsLent(w: World, events: seq<Event>, env: Env)
    ensures LentFresh(w, Last(CachedRun(w, events + [BorrowAt(env)]).results), env)
  {
    CachedExpiryIsTheTokens(w, events);
    assert DropLast(events + [BorrowAt(env)]) == events;
  }

  // ------------------------------------------------------------------ writers in the middle

  const SAMPLE :=
    World((token: string) => if token == "expired" then Some(0.0) else None, (tokens: Tokens) => tokens.account)

  const CALM := Env(100, true, true, NoTokens, NotWritten, true, None, None)

  /** A login written over a refreshed one before its stamp is read is not noticed: equal stamps
      mean equal contents in this run, yet the next borrow lends the superseded login. */
  lemma LoginWrittenDuringRefreshIsMissed()
    ensures var before := File(Stamp(1, 1), Login(Tokens("expired", "r", "", "a")));
      var after := File(Stamp(3, 1), Login(Tokens("theirs", "", "", "b")));
      var busy := Env(100, true, true, NewTokens("ours", None, None), Saved(Stamp(2, 1)), true, None, Some(after));
      var events := [Write(Some(before)), BorrowAt(busy), BorrowAt(CALM)];
      && CachedRun(SAMPLE, events).results == [Lent(Credentials("ours", "a")), Lent(Credentials("ours", "a"))]
      && UncachedRun(SAMPLE, events).results == [Lent(Credentials("ours", "a")), Lent(Credentials("theirs", "b"))]
  {
    var before := File(Stamp(1, 1), Login(Tokens("expired", "r", "", "a")));
    var after := File(Stamp(3, 1), Login(Tokens("theirs", "", "", "b")));
    var busy := Env(100, true, true, NewTokens("ours", None, None), Saved(Stamp(2, 1)), true, None, Some(after));
    var one: seq<Event> := [Write(Some(before))];
    var two := [Write(Some(before)), BorrowAt(busy)];
    var three := [Write(Some(before)), BorrowAt(busy), BorrowAt(CALM)];
    assert DropLast(three) == two && DropLast(two) == one && DropLast(one) == [];
    assert RunFrom(SAMPLE, Run(None, None, []), []) == Run(None, None, []);
    assert CachedRun(SAMPLE, one) == UncachedRun(SAMPLE, one) == Run(Some(before), None, []);
    var renewed := Tokens("ours", "r", "", "a");
    assert Uncached(SAMPLE, Some(before), busy)
        == Outcome(Some(after), Lent(Credentials("ours", "a")), Some(EntryFor(SAMPLE, after.stamp, renewed)));
    assert CachedRun(SAMPLE, two)
        == Run(Some(after), Some(EntryFor(SAMPLE, after.stamp, renewed)), [Lent(Credentials("ours", "a"))]);
    assert UncachedRun(SAMPLE, two) == Run(Some(after), None, [Lent(Credentials("ours", "a"))]);
  }
}
