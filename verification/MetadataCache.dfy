/** The short-lived cache of metadata results, and the key that names a request in it. */
module MetadataCache {
  import opened Basics
  import Paths

  // ---------------------------------------------------------------- keys

  const NUL: char := '\U{0}'

  /** The repository id and the argument list, joined by NUL. */
  function MetadataKey(repository: string, argv: seq<string>): string {
    repository + [NUL] + JoinWith(argv, NUL)
  }

  predicate NulFree(s: string) {
    NUL !in s
  }

  /** Requests with NUL-free parts have different keys unless they are the same request. */
  lemma KeyIsInjective(r: string, argv: seq<string>, r': string, argv': seq<string>)
    requires NulFree(r) && argv != [] && forall i :: 0 <= i < |argv| ==> NulFree(argv[i])
    requires NulFree(r') && argv' != [] && forall i :: 0 <= i < |argv'| ==> NulFree(argv'[i])
    ensures MetadataKey(r, argv) == MetadataKey(r', argv') <==> r == r' && argv == argv'
  {
    KeySplits(r, argv);
    KeySplits(r', argv');
    assert ([r] + argv)[1..] == argv && ([r'] + argv')[1..] == argv';
  }

  lemma KeySplits(r: string, argv: seq<string>)
    requires NulFree(r) && argv != [] && forall i :: 0 <= i < |argv| ==> NulFree(argv[i])
    ensures SplitOn(MetadataKey(r, argv), NUL) == [r] + argv
  {
    SplitAtSeparator(r, NUL, JoinWith(argv, NUL));
    SplitWithoutSeparator(r, NUL);
    SplitUndoesJoin(argv, NUL);
  }

  // ---------------------------------------------------------------- allowed argument lists

  const ALLOWED_SUBCOMMANDS := {"version", "snapshots", "ls", "find", "stats"}

  const DENIED_FLAGS := [
    "--password-command", "-p", "--password", "--password-file", "--insecure-tls", "--insecure-no-password",
    "--option", "-o", "--cacert", "--tls-client-cert", "--repo", "-r", "--repository", "--repository-file",
    "--cache-dir", "--no-lock", "--key-hint", "--blob", "--pack", "--tree"
  ]

  const DENIED_PREFIXES := [
    "--password-command=", "--password=", "--password-file=", "--insecure-tls=", "--insecure-no-password=",
    "--option=", "--cacert=", "--tls-client-cert=", "--repo=", "--repository=", "--repository-file=",
    "--cache-dir=", "--no-lock=", "--key-hint=", "-r=", "-p=", "-o="
  ]

  predicate ProperToken(token: string) {
    token != "" && forall i :: 0 <= i < |token| ==> !Paths.IsControl(token[i])
  }

  predicate Denied(token: string) {
    token in DENIED_FLAGS || exists i :: 0 <= i < |DENIED_PREFIXES| && DENIED_PREFIXES[i] <= token
  }

  predicate Positional(token: string) {
    ProperToken(token) && token[0] != '-'
  }

  /** Before "--" no token may be a denied flag; after it none may look like a flag at all. */
  predicate TokensAllowed(argv: seq<string>) {
    if argv == [] then true
    else if !ProperToken(argv[0]) then false
    else if argv[0] == "--" then forall i :: 1 <= i < |argv| ==> Positional(argv[i])
    else !Denied(argv[0]) && TokensAllowed(argv[1..])
  }

  predicate ArgvAllowed(argv: seq<string>) {
    argv != [] && argv[0] in ALLOWED_SUBCOMMANDS && TokensAllowed(argv)
  }

  /** No "--" stands before token `i`. */
  ghost predicate BeforeMarker(argv: seq<string>, i: nat) {
    i < |argv| && forall j :: 0 <= j < i ==> argv[j] != "--"
  }

  /** An allowed list is a known subcommand whose tokens are non-empty and free of control characters; up to the
      first "--" none is a denied flag, and behind it none starts with a dash. */
  lemma ArgvAllowedIff(argv: seq<string>)
    ensures ArgvAllowed(argv) <==>
      && argv != [] && argv[0] in {"version", "snapshots", "ls", "find", "stats"}
      && (forall i :: 0 <= i < |argv| ==> PlainToken(argv[i]))
      && (forall i :: 0 <= i < |argv| ==> TokenFits(argv, i))
  {
    TokensAllowedIff(argv);
    forall i | 0 <= i < |argv| ensures ProperToken(argv[i]) <==> PlainToken(argv[i]) {
    }
  }

  ghost predicate PlainToken(token: string) {
    token != "" && forall k :: 0 <= k < |token| ==> ' ' <= token[k] && !('\U{7f}' <= token[k] <= '\U{9f}')
  }

  ghost predicate TokenFits(argv: seq<string>, i: nat)
    requires i < |argv|
  {
    if BeforeMarker(argv, i) then
      argv[i] !in DENIED_FLAGS && forall k :: 0 <= k < |DENIED_PREFIXES| ==> !(DENIED_PREFIXES[k] <= argv[i])
    else
      argv[i] != "" && argv[i][0] != '-'
  }

  lemma {:induction false} TokensAllowedIff(argv: seq<string>)
    ensures TokensAllowed(argv) <==>
      && (forall i :: 0 <= i < |argv| ==> ProperToken(argv[i]))
      && (forall i :: 0 <= i < |argv| ==> TokenFits(argv, i))
  {
    DeniedFlagsHaveDashes();
    if argv != [] && argv[0] == "--" {
      assert BeforeMarker(argv, 0);
      forall i | 1 <= i < |argv| ensures TokenFits(argv, i) <==> argv[i] != "" && argv[i][0] != '-' {
        assert !BeforeMarker(argv, i);
      }
      assert (forall i :: 0 <= i < |argv| ==> ProperToken(argv[i]))
         <==> ProperToken(argv[0]) && forall i :: 1 <= i < |argv| ==> ProperToken(argv[i]);
    } else if argv != [] {
      var rest := argv[1..];
      TokensAllowedIff(rest);
      assert BeforeMarker(argv, 0);
      forall i | 0 <= i < |rest| ensures TokenFits(rest, i) <==> TokenFits(argv, i + 1) {
        MarkerBehind(argv, i);
      }
      FirstAndRest(argv);
    }
  }

  lemma MarkerBehind(argv: seq<string>, i: nat)
    requires i + 1 < |argv| && argv[0] != "--"
    ensures BeforeMarker(argv[1..], i) <==> BeforeMarker(argv, i + 1)
  {
    if BeforeMarker(argv[1..], i) {
      forall j | 0 <= j < i + 1 ensures argv[j] != "--" {
        assert j > 0 ==> argv[1..][j - 1] == argv[j];
      }
    }
  }

  lemma FirstAndRest(argv: seq<string>)
    requires argv != []
    requires forall i :: 0 <= i < |argv| - 1 ==> (TokenFits(argv[1..], i) <==> TokenFits(argv, i + 1))
    ensures (forall i :: 0 <= i < |argv| ==> TokenFits(argv, i))
       <==> TokenFits(argv, 0) && forall i :: 0 <= i < |argv| - 1 ==> TokenFits(argv[1..], i)
    ensures (forall i :: 0 <= i < |argv| ==> ProperToken(argv[i]))
       <==> ProperToken(argv[0]) && forall i :: 0 <= i < |argv| - 1 ==> ProperToken(argv[1..][i])
  {
    if TokenFits(argv, 0) && forall i :: 0 <= i < |argv| - 1 ==> TokenFits(argv[1..], i) {
      forall i | 0 <= i < |argv| ensures TokenFits(argv, i) {
        assert i > 0 ==> TokenFits(argv[1..], i - 1);
      }
    }
    if ProperToken(argv[0]) && forall i :: 0 <= i < |argv| - 1 ==> ProperToken(argv[1..][i]) {
      forall i | 0 <= i < |argv| ensures ProperToken(argv[i]) {
        assert i > 0 ==> ProperToken(argv[1..][i - 1]);
      }
    }
  }

  /** The check as the command runner performs it, token by token. */
  method AssertArgvAllowed(argv: seq<string>) returns (ok: bool)
    ensures ok == ArgvAllowed(argv)
  {
    if |argv| == 0 || argv[0] !in ALLOWED_SUBCOMMANDS {
      return false;
    }
    assert argv[0..] == argv;
    for i := 0 to |argv|
      invariant TokensAllowed(argv) == TokensAllowed(argv[i..])
    {
      assert argv[i..][0] == argv[i] && argv[i..][1..] == argv[i + 1..];
      if !ProperToken(argv[i]) {
        return false;
      }
      if argv[i] == "--" {
        assert forall j :: 1 <= j < |argv| - i ==> argv[i..][j] == argv[i + j];
        for j := i + 1 to |argv|
          invariant forall k :: 1 <= k < j - i ==> Positional(argv[i..][k])
        {
          if !ProperToken(argv[j]) || argv[j][0] == '-' {
            assert !Positional(argv[i..][j - i]);
            return false;
          }
        }
        return true;
      }
      if Denied(argv[i]) {
        return false;
      }
    }
    return true;
  }

  lemma DeniedFlagsHaveDashes()
    ensures forall i :: 0 <= i < |DENIED_FLAGS| ==>
        DENIED_FLAGS[i] != "" && DENIED_FLAGS[i][0] == '-' && DENIED_FLAGS[i] != "--"
    ensures forall i :: 0 <= i < |DENIED_PREFIXES| ==> |DENIED_PREFIXES[i]| >= 3 && DENIED_PREFIXES[i][0] == '-'
  {
  }

  lemma {:induction false} AllowedTokensAreProper(argv: seq<string>)
    requires TokensAllowed(argv)
    ensures forall i :: 0 <= i < |argv| ==> ProperToken(argv[i]) && !Denied(argv[i])
  {
    if argv != [] {
      DeniedFlagsHaveDashes();
      if argv[0] != "--" {
        AllowedTokensAreProper(argv[1..]);
        assert forall i :: 1 <= i < |argv| ==> argv[i] == argv[1..][i - 1];
      }
    }
  }

  /** An accepted argument list contains no denied flag anywhere, and its tokens are not empty and hold
      no NUL, which is what makes its cache key unambiguous. */
  lemma AcceptedArgv(argv: seq<string>)
    requires ArgvAllowed(argv)
    ensures argv != [] && argv[0] in ALLOWED_SUBCOMMANDS
    ensures forall i :: 0 <= i < |argv| ==> argv[i] != "" && NulFree(argv[i]) && !Denied(argv[i])
  {
    AllowedTokensAreProper(argv);
    forall i | 0 <= i < |argv| ensures NulFree(argv[i]) {
      ProperTokensAreNulFree(argv[i]);
    }
  }

  lemma ProperTokensAreNulFree(token: string)
    requires ProperToken(token)
    ensures NulFree(token)
  {
    assert Paths.IsControl(NUL);
    assert forall k :: 0 <= k < |token| ==> token[k] != NUL;
  }

  // ---------------------------------------------------------------- the cache

  datatype Entry = Entry(result: string, observed: int)

  /** A result that was stored, under which key and when. */
  datatype Stored = Stored(key: string, entry: Entry)

  function LastStored(log: seq<Stored>, key: string): Option<Entry> {
    if log == [] then None
    else if log[|log| - 1].key == key then Some(log[|log| - 1].entry)
    else LastStored(log[..|log| - 1], key)
  }

  predicate Expired(e: Entry, now: int, ttl: int) {
    now - e.observed >= ttl
  }

  /** The entries that have not expired. */
  function Live(entries: map<string, Entry>, now: int, ttl: int): map<string, Entry> {
    map k | k in entries && !Expired(entries[k], now, ttl) :: entries[k]
  }

  /** `kept` is `all` without some of its oldest entries. */
  ghost predicate KeepsNewest(all: map<string, Entry>, kept: map<string, Entry>) {
    && (forall k :: k in kept ==> k in all && kept[k] == all[k])
    && (forall k, k' :: k in all && k !in kept && k' in kept ==> all[k].observed <= kept[k'].observed)
  }

  /** What is left of `all` once there is room for one more entry: nothing was dropped without need. */
  ghost predicate HasRoom(all: map<string, Entry>, kept: map<string, Entry>, max: nat) {
    && KeepsNewest(all, kept)
    && (kept == all || |kept| + 1 >= max)
    && (|kept| < max || kept == map[])
  }

  method OldestKey(entries: map<string, Entry>) returns (oldestKey: string)
    requires "" !in entries
    ensures entries == map[] ==> oldestKey == ""
    ensures entries != map[] ==>
      oldestKey in entries && forall k :: k in entries ==> entries[oldestKey].observed <= entries[k].observed
  {
    oldestKey := "";
    var oldest := 0;
    var rest := entries.Keys;
    while rest != {}
      invariant rest <= entries.Keys
      invariant oldestKey == "" ==> rest == entries.Keys
      invariant oldestKey != "" ==> oldestKey in entries && oldest == entries[oldestKey].observed
      invariant oldestKey != "" ==> forall k :: k in entries && k !in rest ==> oldest <= entries[k].observed
      decreases rest
    {
      var k :| k in rest;
      rest := rest - {k};
      if oldestKey == "" || entries[k].observed < oldest {
        oldestKey := k;
        oldest := entries[k].observed;
      }
    }
    if entries != map[] {
      assert entries.Keys != {};
    }
  }

  // ---------------------------------------------------------------- requests

  /** A request for metadata and the result stored for it. */
  datatype Answered = Answered(repository: string, argv: seq<string>, entry: Entry)

  function LastAnswer(history: seq<Answered>, repository: string, argv: seq<string>): Option<Entry> {
    if history == [] then None
    else
      var last := history[|history| - 1];
      if last.repository == repository && last.argv == argv then Some(last.entry)
      else LastAnswer(history[..|history| - 1], repository, argv)
  }

  function LogOf(history: seq<Answered>): seq<Stored> {
    if history == [] then []
    else
      var last := history[|history| - 1];
      LogOf(history[..|history| - 1]) + [Stored(MetadataKey(last.repository, last.argv), last.entry)]
  }

  /** Only requests that pass the argument check are stored. */
  ghost predicate AllAcceptable(history: seq<Answered>) {
    forall i :: 0 <= i < |history| ==> Acceptable(history[i].repository, history[i].argv)
  }

  predicate Acceptable(repository: string, argv: seq<string>) {
    NulFree(repository) && ArgvAllowed(argv)
  }

  /** The cache agrees with the requests: what is latest under a request's key is what was latest stored
      for exactly that repository and argument list. */
  lemma {:induction false} CacheAnswersTheRequest(history: seq<Answered>, repository: string, argv: seq<string>)
    requires Acceptable(repository, argv)
    requires AllAcceptable(history)
    ensures LastStored(LogOf(history), MetadataKey(repository, argv)) == LastAnswer(history, repository, argv)
  {
    if history != [] {
      var n := |history| - 1;
      var last := history[n];
      CacheAnswersTheRequest(history[..n], repository, argv);
      AcceptedArgv(argv);
      AcceptedArgv(last.argv);
      KeyIsInjective(repository, argv, last.repository, last.argv);
      assert LogOf(history)[..n] == LogOf(history[..n]) by { LogLength(history[..n]); }
      LogLength(history);
    }
  }

  lemma {:induction false} LogLength(history: seq<Answered>)
    ensures |LogOf(history)| == |history|
  {
    if history != [] {
      LogLength(history[..|history| - 1]);
    }
  }

  class Cache {
    var entries: map<string, Entry>
    const ttl: int
    const max: nat
    ghost var log: seq<Stored>
    ghost var history: seq<Answered>

    /** The stored results are those of the requests that were answered. */
    ghost predicate Agrees()
      reads this
    {
      Valid() && AllAcceptable(history) && log == LogOf(history)
    }

    /** Whatever is cached is the latest result stored under its key, and the bound is respected. */
    ghost predicate Valid()
      reads this
    {
      && "" !in entries
      && (forall k :: k in entries ==> LastStored(log, k) == Some(entries[k]))
      && |entries| <= (if max == 0 then 1 else max)
    }

    constructor (ttl: int, max: nat)
      ensures Valid() && Agrees() && entries == map[] && history == []
      ensures this.ttl == ttl && this.max == if ttl <= 0 then 0 else max
    {
      this.ttl := ttl;
      this.max := if ttl <= 0 then 0 else max;
      entries := map[];
      log, history := [], [];
    }

    /** Looking up a request: a hit is the result last stored for exactly that repository and argument
        list, and its age is from zero up to the time to live. */
    method GetAnswer(repository: string, argv: seq<string>, now: int) returns (hit: Option<Entry>)
      requires Agrees() && Acceptable(repository, argv)
      modifies `entries
      ensures Agrees()
      ensures hit.Some? ==> hit == LastAnswer(history, repository, argv) && 0 <= now - hit.value.observed < ttl
    {
      CacheAnswersTheRequest(history, repository, argv);
      hit := Get(MetadataKey(repository, argv), now);
    }

    /** Storing the result of a request, after which the request is answered with it. */
    method PutAnswer(repository: string, argv: seq<string>, result: string, now: int)
      requires Agrees() && Acceptable(repository, argv)
      modifies `entries, `log, `history
      ensures Agrees()
      ensures history
           == if ttl <= 0 then old(history) else old(history) + [Answered(repository, argv, Entry(result, now))]
      ensures ttl > 0 ==>
        var key := MetadataKey(repository, argv);
        && key in entries && entries[key] == Entry(result, now)
        && LastAnswer(history, repository, argv) == Some(entries[key])
    {
      var key := MetadataKey(repository, argv);
      assert key[|repository|] == NUL;
      ghost var base := Put(key, result, now);
      if ttl > 0 {
        ghost var before := history;
        history := history + [Answered(repository, argv, Entry(result, now))];
        assert history[..|history| - 1] == before;
      }
    }

    /** A hit is the latest result stored under the key, not older than the time to live and not from
        the future; an entry that fails the age test is dropped. */
    method Get(key: string, now: int) returns (hit: Option<Entry>)
      requires Valid()
      modifies `entries
      ensures Valid()
      ensures hit.Some? <==> ttl > 0 && key in old(entries) && 0 <= now - old(entries)[key].observed < ttl
      ensures hit.Some? ==> LastStored(log, key) == hit && 0 <= now - hit.value.observed < ttl
      ensures entries == if hit.Some? || ttl <= 0 then old(entries) else old(entries) - {key}
    {
      if ttl <= 0 {
        return None;
      }
      if key !in entries {
        return None;
      }
      var age := now - entries[key].observed;
      if age < 0 || age >= ttl {
        Shrinks(entries, key);
        entries := entries - {key};
        return None;
      }
      return Some(entries[key]);
    }

    /** Storing drops expired entries, then the oldest ones until there is room, and nothing else. */
    method Put(key: string, result: string, now: int) returns (ghost base: map<string, Entry>)
      requires Valid() && key != ""
      modifies `entries, `log
      ensures Valid()
      ensures ttl <= 0 ==> entries == old(entries) && log == old(log)
      ensures ttl > 0 ==>
        && log == old(log) + [Stored(key, Entry(result, now))]
        && HasRoom(Live(old(entries), now, ttl), base, max)
        && entries == base[key := Entry(result, now)]
    {
      base := map[];
      if ttl <= 0 {
        return;
      }
      DropExpired(now);
      MakeRoom();
      base := entries;
      log := log + [Stored(key, Entry(result, now))];
      assert log[..|log| - 1] == old(log);
      entries := entries[key := Entry(result, now)];
      Grows(base, key, Entry(result, now));
    }

    /** The first loop of a put. */
    method DropExpired(now: int)
      requires Valid()
      modifies `entries
      ensures Valid() && entries == Live(old(entries), now, ttl)
      ensures entries == map k | k in old(entries) && now - old(entries)[k].observed < ttl :: old(entries)[k]
    {
      var rest := entries.Keys;
      while rest != {}
        invariant rest <= old(entries).Keys
        invariant entries ==
          map k | k in old(entries) && (k in rest || !Expired(old(entries)[k], now, ttl)) :: old(entries)[k]
        decreases rest
      {
        var k :| k in rest;
        rest := rest - {k};
        if now - entries[k].observed >= ttl {
          entries := entries - {k};
        }
      }
      Smaller(entries, old(entries));
    }

    /** The second loop of a put. */
    method MakeRoom()
      requires Valid()
      modifies `entries
      ensures Valid() && HasRoom(old(entries), entries, max)
    {
      while |entries| >= max
        invariant Valid() && KeepsNewest(old(entries), entries)
        invariant entries == old(entries) || |entries| + 1 >= max
        decreases |entries|
      {
        var oldestKey := OldestKey(entries);
        if oldestKey == "" {
          break;
        }
        Shrinks(entries, oldestKey);
        entries := entries - {oldestKey};
      }
    }
  }

  lemma {:induction false} Smaller(a: map<string, Entry>, b: map<string, Entry>)
    requires forall k :: k in a ==> k in b
    ensures |a| <= |b|
    decreases |a|
  {
    if a != map[] {
      var k :| k in a;
      Shrinks(a, k);
      Shrinks(b, k);
      Smaller(a - {k}, b - {k});
    }
  }

  lemma Shrinks(entries: map<string, Entry>, key: string)
    requires key in entries
    ensures |entries - {key}| == |entries| - 1
  {
    assert (entries - {key}).Keys == entries.Keys - {key};
  }

  lemma Grows(entries: map<string, Entry>, key: string, e: Entry)
    ensures |entries[key := e]| <= |entries| + 1
  {
    assert entries[key := e].Keys == entries.Keys + {key};
  }
}
