/** Token metadata resolution as `src/utils/tokens.rs` performs it: a store lookup, one fetch per
    missing address, a count check, one more round for the component addresses, and a
    write-back. `GetTokensMetadata` and `GetTokens` follow the code as written; the `Corrected`
    variants return the fetched records for the write-back, as the code evidently intends. */
module Tokens {
  import opened Wrappers
  import opened TokenSpec

  /** The addresses of rows, in order (`db_token_address`, tokens.rs:16). */
  function Addresses(rows: seq<TokenDetails>): (r: seq<Address>)
    ensures |r| == |rows| && forall i | 0 <= i < |rows| :: r[i] == rows[i].token
  {
    seq(|rows|, i requires 0 <= i < |rows| => rows[i].token)
  }

  function Elements<T>(s: seq<T>): set<T>
  {
    set x | x in s
  }

  function AddressSet(rows: seq<TokenDetails>): set<Address>
  {
    Elements(Addresses(rows))
  }

  predicate NoDup<T(==)>(s: seq<T>)
  {
    forall i, j | 0 <= i < j < |s| :: s[i] != s[j]
  }

  lemma {:induction false} NoDupCard<T>(s: seq<T>)
    requires NoDup(s)
    ensures |Elements(s)| == |s|
  {
    if s != [] {
      var init := s[..|s| - 1];
      assert NoDup(init);
      NoDupCard(init);
      assert Elements(s) == Elements(init) + {s[|s| - 1]};
      assert s[|s| - 1] !in Elements(init);
    }
  }

  lemma ElementsAppend<T>(s: seq<T>, x: T)
    ensures Elements(s + [x]) == Elements(s) + {x}
    ensures NoDup(s) && x !in Elements(s) ==> NoDup(s + [x])
  {
    assert forall i | 0 <= i < |s| :: (s + [x])[i] == s[i];
  }

  lemma ElementsConcat<T>(s: seq<T>, t: seq<T>)
    ensures Elements(s + t) == Elements(s) + Elements(t)
  {
    assert forall i | 0 <= i < |t| :: (s + t)[|s| + i] == t[i];
  }

  /** The map `HashMap::insert` builds from rows taken in order: a later row replaces an earlier
      one with the same address. */
  function MapOf(rows: seq<TokenDetails>): (m: map<Address, TokenDetails>)
    ensures m.Keys == AddressSet(rows)
    ensures forall k | k in m :: m[k].token == k && m[k] in rows
  {
    if rows == [] then map[]
    else
      var last := rows[|rows| - 1];
      var init := MapOf(rows[..|rows| - 1]);
      assert Elements(Addresses(rows)) == Elements(Addresses(rows[..|rows| - 1])) + {last.token} by {
        assert Addresses(rows) == Addresses(rows[..|rows| - 1]) + [last.token];
      }
      init[last.token := last]
  }

  /** Rows that all agree with `want` build the part of `want` they mention. */
  lemma {:induction false} MapOfAgrees(rows: seq<TokenDetails>, want: map<Address, TokenDetails>)
    requires forall i | 0 <= i < |rows| :: rows[i].token in want && want[rows[i].token] == rows[i]
    ensures MapOf(rows) == map a | a in AddressSet(rows) :: want[a]
  {
    if rows != [] {
      MapOfAgrees(rows[..|rows| - 1], want);
    }
  }

  lemma UpdateAfterUnion<K, V>(m: map<K, V>, x: map<K, V>, k: K, v: V)
    ensures (m + x)[k := v] == m + x[k := v]
  {
  }

  /** The records `get_token_metadata` returned for `calls`, in call order. */
  function Fetches(rpc: Rpc, calls: seq<Address>): (rows: seq<TokenDetails>)
    requires forall i | 0 <= i < |calls| :: calls[i] in rpc.metadata
    ensures |rows| == |calls| && forall i | 0 <= i < |calls| :: rows[i] == rpc.metadata[calls[i]]
  {
    seq(|calls|, i requires 0 <= i < |calls| => rpc.metadata[calls[i]])
  }

  /** `.map(|token| token.clone().unwrap())` on the joined answers (tokens.rs:29-33): all of
      them, or a panic if any fetch failed. */
  function UnwrapAll(answers: seq<Option<TokenDetails>>): (r: Option<seq<TokenDetails>>)
    ensures r.Some? <==> forall i | 0 <= i < |answers| :: answers[i].Some?
    ensures r.Some? ==> |r.value| == |answers| && forall i | 0 <= i < |answers| :: r.value[i] == answers[i].value
  {
    if answers == [] then Some([])
    else
      match (answers[0], UnwrapAll(answers[1..]))
      case (Some(first), Some(rest)) => Some([first] + rest)
      case (None, _) => None
      case (Some(_), None) =>
        assert exists i | 0 <= i < |answers[1..]| :: answers[1..][i].None?;
        None
  }

  /** `hits` is what the store answers for `tokens`: each stored address once, with its record. */
  ghost predicate StoredPart(store: map<Address, TokenDetails>, tokens: set<Address>, hits: seq<TokenDetails>)
  {
    && NoDup(Addresses(hits))
    && AddressSet(hits) == tokens * store.Keys
    && forall i | 0 <= i < |hits| :: hits[i].token in store && store[hits[i].token] == hits[i]
  }

  /** `found` is the first vector of a round: the store's answer for `tokens`, followed by the
      records fetched for `calls` in call order. */
  ghost predicate IsRound(store: map<Address, TokenDetails>, rpc: Rpc, tokens: set<Address>,
                          calls: seq<Address>, found: seq<TokenDetails>)
  {
    && |calls| <= |found|
    && StoredPart(store, tokens, found[..|found| - |calls|])
    && forall i | 0 <= i < |calls| ::
         calls[i] in rpc.metadata && found[|found| - |calls| + i] == rpc.metadata[calls[i]]
  }

  /** What a round's first vector holds, in terms of the reference definitions. */
  lemma RoundFacts(store: map<Address, TokenDetails>, rpc: Rpc, tokens: set<Address>,
                   calls: seq<Address>, found: seq<TokenDetails>)
    requires StoreKeyed(store)
    requires NoDup(calls) && Elements(calls) == tokens - store.Keys
    requires IsRound(store, rpc, tokens, calls, found)
    ensures Resolvable(store, rpc, tokens)
    ensures |found| == |tokens|
    ensures Elements(found) == Records(store, rpc, tokens)
    ensures AddressSet(found) == RecordKeys(store, rpc, tokens)
    ensures rpc.KeyedByAddress() ==> MapOf(found) == ResolvedMap(store, rpc, tokens)
  {
    RoundResolvable(store, rpc, tokens, calls, found);
    RoundLength(store, rpc, tokens, calls, found);
    RoundRecords(store, rpc, tokens, calls, found);
    RoundKeys(store, rpc, tokens, found);
    if rpc.KeyedByAddress() {
      RoundMap(store, rpc, tokens, calls, found);
    }
  }

  lemma RoundResolvable(store: map<Address, TokenDetails>, rpc: Rpc, tokens: set<Address>,
                        calls: seq<Address>, found: seq<TokenDetails>)
    requires Elements(calls) == tokens - store.Keys
    requires IsRound(store, rpc, tokens, calls, found)
    ensures Resolvable(store, rpc, tokens)
  {
    forall a | a in tokens ensures Resolve(store, rpc, a).Some? {
      if a !in store {
        assert a in Elements(calls);
        var j :| 0 <= j < |calls| && calls[j] == a;
      }
    }
  }

  lemma RoundLength(store: map<Address, TokenDetails>, rpc: Rpc, tokens: set<Address>,
                    calls: seq<Address>, found: seq<TokenDetails>)
    requires NoDup(calls) && Elements(calls) == tokens - store.Keys
    requires IsRound(store, rpc, tokens, calls, found)
    ensures |found| == |tokens|
  {
    var hits := found[..|found| - |calls|];
    NoDupCard(Addresses(hits));
    NoDupCard(calls);
    SplitCard(tokens, store.Keys);
  }

  lemma SplitCard<T>(a: set<T>, b: set<T>)
    ensures |a| == |a * b| + |a - b|
  {
    assert a == (a * b) + (a - b);
  }

  lemma RoundRecords(store: map<Address, TokenDetails>, rpc: Rpc, tokens: set<Address>,
                     calls: seq<Address>, found: seq<TokenDetails>)
    requires Elements(calls) == tokens - store.Keys
    requires IsRound(store, rpc, tokens, calls, found)
    requires Resolvable(store, rpc, tokens)
    ensures Elements(found) == Records(store, rpc, tokens)
  {
    var k := |found| - |calls|;
    var hits := found[..k];
    forall r | r in Elements(found) ensures r in Records(store, rpc, tokens) {
      var i :| 0 <= i < |found| && found[i] == r;
      if i < k {
        assert hits[i] == r;
        assert r.token in AddressSet(hits) by {
          assert Addresses(hits)[i] == r.token;
        }
        assert Resolve(store, rpc, r.token) == Some(r);
      } else {
        assert calls[i - k] in Elements(calls);
        assert Resolve(store, rpc, calls[i - k]) == Some(r);
      }
    }
    forall a | a in tokens ensures Resolve(store, rpc, a).value in Elements(found) {
      if a in store {
        assert a in AddressSet(hits);
        var i :| 0 <= i < |hits| && Addresses(hits)[i] == a;
        assert found[i] == hits[i];
      } else {
        assert a in Elements(calls);
        var j :| 0 <= j < |calls| && calls[j] == a;
        assert found[k + j] == rpc.metadata[a];
      }
    }
  }

  lemma RoundKeys(store: map<Address, TokenDetails>, rpc: Rpc, tokens: set<Address>, found: seq<TokenDetails>)
    requires Resolvable(store, rpc, tokens)
    requires Elements(found) == Records(store, rpc, tokens)
    ensures AddressSet(found) == RecordKeys(store, rpc, tokens)
  {
    forall a | a in AddressSet(found) ensures a in RecordKeys(store, rpc, tokens) {
      var i :| 0 <= i < |found| && Addresses(found)[i] == a;
      assert found[i] in Elements(found);
    }
    forall a | a in RecordKeys(store, rpc, tokens) ensures a in AddressSet(found) {
      var t :| t in tokens && Resolve(store, rpc, t).value.token == a;
      var r := Resolve(store, rpc, t).value;
      assert r in Records(store, rpc, tokens);
      var i :| 0 <= i < |found| && found[i] == r;
      assert Addresses(found)[i] == a;
    }
  }

  lemma RoundMap(store: map<Address, TokenDetails>, rpc: Rpc, tokens: set<Address>,
                 calls: seq<Address>, found: seq<TokenDetails>)
    requires StoreKeyed(store) && rpc.KeyedByAddress()
    requires Elements(calls) == tokens - store.Keys
    requires IsRound(store, rpc, tokens, calls, found)
    requires Resolvable(store, rpc, tokens)
    requires AddressSet(found) == RecordKeys(store, rpc, tokens)
    ensures MapOf(found) == ResolvedMap(store, rpc, tokens)
  {
    var k := |found| - |calls|;
    var hits := found[..k];
    var want := ResolvedMap(store, rpc, tokens);
    forall i | 0 <= i < |found| ensures found[i].token in want && want[found[i].token] == found[i] {
      if i < k {
        assert hits[i] == found[i];
        assert Addresses(hits)[i] == found[i].token;
        assert found[i].token in AddressSet(hits);
      } else {
        assert calls[i - k] in Elements(calls);
      }
    }
    MapOfAgrees(found, want);
    KeyedRoundKeys(store, rpc, tokens);
  }

  // ---------------------------------------------------------------------------------------
  // The store

  /** The token metadata table, held as a map from address to record: the store is treated as
      an abstract key-value store with the two operations the resolver uses. */
  class Database {
    var tokens: map<Address, TokenDetails>

    ghost predicate Valid()
      reads this
    {
      StoreKeyed(tokens)
    }

    constructor (initial: map<Address, TokenDetails>)
      requires StoreKeyed(initial)
      ensures Valid() && tokens == initial
    {
      tokens := initial;
    }

    /** `Database::get_tokens`: the stored records of the requested addresses, each once, in the
        set's iteration order. */
    method GetTokens(requested: set<Address>) returns (rows: seq<TokenDetails>)
      requires Valid()
      ensures StoredPart(tokens, requested, rows)
    {
      rows := [];
      var rest := requested;
      while rest != {}
        invariant rest <= requested
        invariant NoDup(Addresses(rows))
        invariant AddressSet(rows) == (requested - rest) * tokens.Keys
        invariant forall i | 0 <= i < |rows| :: rows[i].token in tokens && tokens[rows[i].token] == rows[i]
        decreases |rest|
      {
        var a :| a in rest;
        if a in tokens {
          assert Addresses(rows + [tokens[a]]) == Addresses(rows) + [a];
          ElementsAppend(Addresses(rows), a);
          rows := rows + [tokens[a]];
        }
        rest := rest - {a};
      }
    }

    /** `Database::store_token_details`: records each row under its address, a later row
        replacing an earlier one. */
    method StoreTokenDetails(records: seq<TokenDetails>)
      requires Valid()
      modifies this
      ensures Valid()
      ensures tokens == old(tokens) + MapOf(records)
    {
      tokens := tokens + MapOf(records);
    }
  }

  // ---------------------------------------------------------------------------------------
  // One round: get_tokens_metadata (tokens.rs:10-38)

  /** tokens.rs:18-27: the requested addresses that are not among `found`, each once, in the
      set's iteration order. */
  method MissingTokens(tokens: set<Address>, found: seq<Address>) returns (missing: seq<Address>)
    ensures NoDup(missing) && Elements(missing) == tokens - Elements(found)
  {
    missing := [];
    var rest := tokens;
    while rest != {}
      invariant rest <= tokens
      invariant NoDup(missing)
      invariant Elements(missing) == (tokens - rest) - Elements(found)
      decreases |rest|
    {
      var token :| token in rest;
      if token !in found {
        ElementsAppend(missing, token);
        missing := missing + [token];
      }
      rest := rest - {token};
    }
  }

  /** tokens.rs:29-31: one `get_token_metadata` call per missing address; `join_all` waits for
      every answer and keeps them in call order. */
  method FetchEach(rpc: Rpc, missing: seq<Address>) returns (answers: seq<Option<TokenDetails>>)
    ensures |answers| == |missing|
    ensures forall j | 0 <= j < |missing| :: answers[j] == rpc.GetTokenMetadata(missing[j])
  {
    answers := [];
    for i := 0 to |missing|
      invariant |answers| == i
      invariant forall j | 0 <= j < i :: answers[j] == rpc.GetTokenMetadata(missing[j])
    {
      answers := answers + [rpc.GetTokenMetadata(missing[i])];
    }
  }

  /** Every answer is present exactly when every requested address is stored or fetchable. */
  lemma AnswersComplete(store: map<Address, TokenDetails>, rpc: Rpc, tokens: set<Address>,
                        missing: seq<Address>, answers: seq<Option<TokenDetails>>)
    requires Elements(missing) == tokens - store.Keys
    requires |answers| == |missing|
    requires forall j | 0 <= j < |missing| :: answers[j] == rpc.GetTokenMetadata(missing[j])
    ensures (forall j | 0 <= j < |answers| :: answers[j].Some?) <==> Resolvable(store, rpc, tokens)
  {
    if forall j | 0 <= j < |answers| :: answers[j].Some? {
      forall a | a in tokens && a !in store ensures a in rpc.metadata {
        assert a in Elements(missing);
        var j :| 0 <= j < |missing| && missing[j] == a;
        assert answers[j].Some?;
      }
    } else {
      var j :| 0 <= j < |answers| && answers[j].None?;
      assert missing[j] in Elements(missing);
    }
  }

  /** tokens.rs:15-33: the store lookup, the requested addresses it did not answer for, one
      fetch per such address and the unwrap of every answer. `calls` records the addresses
      passed to the fetcher. */
  method LookupAndFetch(db: Database, rpc: Rpc, tokens: set<Address>)
    returns (outcome: Result<(seq<TokenDetails>, seq<TokenDetails>), Failure>, ghost calls: seq<Address>)
    requires db.Valid()
    ensures NoDup(calls) && Elements(calls) == tokens - db.tokens.Keys
    ensures outcome.Success? <==> Resolvable(db.tokens, rpc, tokens)
    ensures outcome.Failure? ==> outcome.error == FetchFailed
    ensures outcome.Success? ==>
              && StoredPart(db.tokens, tokens, outcome.value.0)
              && (forall i | 0 <= i < |calls| :: calls[i] in rpc.metadata)
              && outcome.value.1 == Fetches(rpc, calls)
  {
    var dbTokens := db.GetTokens(tokens);
    var dbTokenAddress := Addresses(dbTokens);
    var missingTokens := MissingTokens(tokens, dbTokenAddress);
    SubtractStored(tokens, db.tokens.Keys);
    var missingTokensData := FetchEach(rpc, missingTokens);
    calls := missingTokens;
    AnswersComplete(db.tokens, rpc, tokens, missingTokens, missingTokensData);

    var missingTokensMetadata := UnwrapAll(missingTokensData);
    if missingTokensMetadata.None? {
      return Failure(FetchFailed), calls;
    }
    outcome := Success((dbTokens, missingTokensMetadata.value));
  }

  lemma SubtractStored<T>(tokens: set<T>, stored: set<T>)
    ensures tokens - tokens * stored == tokens - stored
  {
  }

  /** `get_tokens_metadata` as written. `db_tokens.append(&mut missing_tokens_metadata)`
      (tokens.rs:35) moves every fetched record onto `db_tokens` and leaves the second vector
      EMPTY, so the list returned for the write-back never holds anything. */
  method GetTokensMetadata(db: Database, rpc: Rpc, tokens: set<Address>)
    returns (outcome: Result<(seq<TokenDetails>, seq<TokenDetails>), Failure>, ghost calls: seq<Address>)
    requires db.Valid()
    ensures NoDup(calls) && Elements(calls) == tokens - db.tokens.Keys
    ensures tokens <= db.tokens.Keys ==> calls == []
    ensures outcome.Success? <==> Resolvable(db.tokens, rpc, tokens)
    ensures outcome.Failure? ==> outcome.error == FetchFailed
    ensures outcome.Success? ==> IsRound(db.tokens, rpc, tokens, calls, outcome.value.0)
    ensures outcome.Success? ==> outcome.value.1 == []
  {
    var fetched;
    fetched, calls := LookupAndFetch(db, rpc, tokens);
    if tokens <= db.tokens.Keys {
      NoDupCard(calls);
    }
    if fetched.Failure? {
      return Failure(fetched.error), calls;
    }
    var dbTokens, missingTokensMetadata := fetched.value.0, fetched.value.1;
    ghost var hits := dbTokens;
    // Vec::append: the elements move over, the source vector is left empty
    dbTokens, missingTokensMetadata := dbTokens + missingTokensMetadata, [];
    assert dbTokens[..|dbTokens| - |calls|] == hits;
    outcome := Success((dbTokens, missingTokensMetadata));
  }

  /** `get_tokens_metadata` as evidently intended: the fetched records are also returned on
      their own, for the caller to store. */
  method GetTokensMetadataCorrected(db: Database, rpc: Rpc, tokens: set<Address>)
    returns (outcome: Result<(seq<TokenDetails>, seq<TokenDetails>), Failure>, ghost calls: seq<Address>)
    requires db.Valid()
    ensures NoDup(calls) && Elements(calls) == tokens - db.tokens.Keys
    ensures outcome.Success? <==> Resolvable(db.tokens, rpc, tokens)
    ensures outcome.Failure? ==> outcome.error == FetchFailed
    ensures outcome.Success? ==> IsRound(db.tokens, rpc, tokens, calls, outcome.value.0)
    ensures outcome.Success? ==>
              (forall i | 0 <= i < |calls| :: calls[i] in rpc.metadata) && outcome.value.1 == Fetches(rpc, calls)
  {
    var fetched;
    fetched, calls := LookupAndFetch(db, rpc, tokens);
    if fetched.Failure? {
      return Failure(fetched.error), calls;
    }
    var dbTokens, missingTokensMetadata := fetched.value.0, fetched.value.1;
    assert (dbTokens + missingTokensMetadata)[..|dbTokens|] == dbTokens;
    outcome := Success((dbTokens + missingTokensMetadata, missingTokensMetadata));
  }

  // ---------------------------------------------------------------------------------------
  // get_tokens (tokens.rs:40-83)

  /** tokens.rs:49-51 and 72-74: `insert` every row into the map, in order. */
  method InsertRows(m: map<Address, TokenDetails>, rows: seq<TokenDetails>)
    returns (m': map<Address, TokenDetails>)
    ensures m' == m + MapOf(rows)
  {
    m' := m;
    for i := 0 to |rows|
      invariant m' == m + MapOf(rows[..i])
    {
      assert rows[..i + 1][..i] == rows[..i];
      UpdateAfterUnion(m, MapOf(rows[..i]), rows[i].token, rows[i]);
      m' := m'[rows[i].token := rows[i]];
    }
    assert rows[..|rows|] == rows;
  }

  /** tokens.rs:57-67: the `token0` and `token1` present in the rows. */
  method CollectUnderlying(rows: seq<TokenDetails>) returns (underlying: set<Address>)
    ensures underlying == Components(Elements(rows))
  {
    underlying := {};
    for i := 0 to |rows|
      invariant underlying == Components(Elements(rows[..i]))
    {
      var row := rows[i];
      assert Elements(rows[..i + 1]) == Elements(rows[..i]) + {row} by {
        assert rows[..i + 1] == rows[..i] + [row];
      }
      ComponentsOfOneMore(Elements(rows[..i]), row);
      if row.token0.Some? {
        underlying := underlying + {row.token0.value};
      }
      if row.token1.Some? {
        underlying := underlying + {row.token1.value};
      }
    }
    assert rows[..|rows|] == rows;
  }

  lemma ComponentsOfOneMore(records: set<TokenDetails>, r: TokenDetails)
    ensures Components(records + {r})
            == Components(records)
               + (if r.token0.Some? then {r.token0.value} else {})
               + (if r.token1.Some? then {r.token1.value} else {})
  {
  }

  /** The map the two rounds build: the first round's records, then the second round's over
      them. */
  lemma TwoRoundMap(store: map<Address, TokenDetails>, rpc: Rpc, tokens: set<Address>, u: set<Address>,
                    found: seq<TokenDetails>, foundUnderlying: seq<TokenDetails>)
    requires Resolvable(store, rpc, tokens) && Resolvable(store, rpc, u)
    requires Elements(found) == Records(store, rpc, tokens) && AddressSet(found) == RecordKeys(store, rpc, tokens)
    requires Elements(foundUnderlying) == Records(store, rpc, u) && AddressSet(foundUnderlying) == RecordKeys(store, rpc, u)
    ensures var m := MapOf(found) + MapOf(foundUnderlying);
            && m.Keys == RecordKeys(store, rpc, tokens) + RecordKeys(store, rpc, u)
            && (forall k | k in m :: m[k].token == k)
            && (forall k | k in RecordKeys(store, rpc, u) :: m[k] in Records(store, rpc, u))
            && (forall k | k in m :: m[k] in Records(store, rpc, tokens) + Records(store, rpc, u))
  {
    var m := MapOf(found) + MapOf(foundUnderlying);
    forall k | k in m ensures m[k] in Records(store, rpc, tokens) + Records(store, rpc, u) {
      if k in MapOf(foundUnderlying) {
        assert m[k] in Elements(foundUnderlying);
      } else {
        assert m[k] in Elements(found);
      }
    }
    forall k | k in RecordKeys(store, rpc, u) ensures m[k] in Records(store, rpc, u) {
      assert m[k] in Elements(foundUnderlying);
    }
  }

  /** What `get_tokens` promises, for any store and fetcher: the fetches it makes (`calls` in the
      first round, `underlyingCalls` in the second), the failure it ends in exactly when the
      reference `ResolveTokens` fails, and the map it returns. With a keyed fetcher the outcome
      is `ResolveTokens` itself. */
  ghost predicate GetTokensOutcome(store: map<Address, TokenDetails>, rpc: Rpc, tokens: set<Address>,
                                   outcome: Result<map<Address, TokenDetails>, Failure>,
                                   calls: seq<Address>, underlyingCalls: seq<Address>)
  {
    && NoDup(calls) && Elements(calls) == tokens - store.Keys
    && (PassesFirstRound(store, rpc, tokens) ==>
          var u := Components(Records(store, rpc, tokens));
          NoDup(underlyingCalls) && Elements(underlyingCalls) == u - store.Keys)
    && (!PassesFirstRound(store, rpc, tokens) ==> underlyingCalls == [])
    && (outcome.Failure? <==> ResolveTokens(store, rpc, tokens).Failure?)
    && (outcome.Failure? ==> outcome.error == ResolveTokens(store, rpc, tokens).error)
    && (outcome.Success? ==>
          && Resolvable(store, rpc, tokens)
          && var u := Components(Records(store, rpc, tokens));
          && outcome.value.Keys == RecordKeys(store, rpc, tokens) + RecordKeys(store, rpc, u)
          && (forall k | k in outcome.value :: outcome.value[k].token == k)
          && (forall k | k in RecordKeys(store, rpc, u) :: outcome.value[k] in Records(store, rpc, u))
          && (forall k | k in outcome.value :: outcome.value[k] in Records(store, rpc, tokens) + Records(store, rpc, u)))
    && (rpc.KeyedByAddress() ==> outcome == ResolveTokens(store, rpc, tokens))
  }

  lemma FirstFetchFailed(store: map<Address, TokenDetails>, rpc: Rpc, tokens: set<Address>, calls: seq<Address>)
    requires NoDup(calls) && Elements(calls) == tokens - store.Keys
    requires !Resolvable(store, rpc, tokens)
    ensures GetTokensOutcome(store, rpc, tokens, Failure(FetchFailed), calls, [])
  {
  }

  lemma CountCheckFailed(store: map<Address, TokenDetails>, rpc: Rpc, tokens: set<Address>,
                         calls: seq<Address>, found: seq<TokenDetails>)
    requires StoreKeyed(store)
    requires NoDup(calls) && Elements(calls) == tokens - store.Keys
    requires IsRound(store, rpc, tokens, calls, found)
    requires |MapOf(found)| != |tokens|
    ensures GetTokensOutcome(store, rpc, tokens, Failure(InconsistentTokenCount), calls, [])
  {
    RoundFacts(store, rpc, tokens, calls, found);
    assert |MapOf(found)| == |MapOf(found).Keys|;
    ResolveTokensSuccess(store, rpc, tokens);
  }

  lemma SecondFetchFailed(store: map<Address, TokenDetails>, rpc: Rpc, tokens: set<Address>,
                          calls: seq<Address>, found: seq<TokenDetails>, underlyingCalls: seq<Address>)
    requires StoreKeyed(store)
    requires NoDup(calls) && Elements(calls) == tokens - store.Keys
    requires IsRound(store, rpc, tokens, calls, found)
    requires |MapOf(found)| == |tokens|
    requires NoDup(underlyingCalls) && Elements(underlyingCalls) == Components(Elements(found)) - store.Keys
    requires !Resolvable(store, rpc, Components(Elements(found)))
    ensures GetTokensOutcome(store, rpc, tokens, Failure(FetchFailed), calls, underlyingCalls)
  {
    RoundFacts(store, rpc, tokens, calls, found);
    assert |MapOf(found)| == |MapOf(found).Keys|;
  }

  lemma BothRoundsSucceeded(store: map<Address, TokenDetails>, rpc: Rpc, tokens: set<Address>,
                            calls: seq<Address>, found: seq<TokenDetails>,
                            underlyingCalls: seq<Address>, foundUnderlying: seq<TokenDetails>)
    requires StoreKeyed(store)
    requires NoDup(calls) && Elements(calls) == tokens - store.Keys
    requires IsRound(store, rpc, tokens, calls, found)
    requires |MapOf(found)| == |tokens|
    requires NoDup(underlyingCalls) && Elements(underlyingCalls) == Components(Elements(found)) - store.Keys
    requires IsRound(store, rpc, Components(Elements(found)), underlyingCalls, foundUnderlying)
    ensures GetTokensOutcome(store, rpc, tokens, Success(MapOf(found) + MapOf(foundUnderlying)), calls, underlyingCalls)
  {
    var u := Components(Elements(found));
    RoundFacts(store, rpc, tokens, calls, found);
    assert |MapOf(found)| == |MapOf(found).Keys|;
    RoundFacts(store, rpc, u, underlyingCalls, foundUnderlying);
    TwoRoundMap(store, rpc, tokens, u, found, foundUnderlying);
    ResolveTokensSuccess(store, rpc, tokens);
  }

  /** `get_tokens` as written. Since `get_tokens_metadata` drains its second vector, the
      write-back list of tokens.rs:76-80 is always empty and the store is never written: this
      method has no `modifies` clause. */
  method GetTokens(db: Database, rpc: Rpc, tokens: set<Address>)
    returns (outcome: Result<map<Address, TokenDetails>, Failure>,
             ghost calls: seq<Address>, ghost underlyingCalls: seq<Address>)
    requires db.Valid()
    ensures GetTokensOutcome(db.tokens, rpc, tokens, outcome, calls, underlyingCalls)
    ensures outcome.Failure? <==> ResolveTokens(db.tokens, rpc, tokens).Failure?
    ensures rpc.KeyedByAddress() ==> outcome == ResolveTokens(db.tokens, rpc, tokens)
  {
    underlyingCalls := [];
    var first;
    first, calls := GetTokensMetadata(db, rpc, tokens);
    if first.Failure? {
      FirstFetchFailed(db.tokens, rpc, tokens, calls);
      return Failure(FetchFailed), calls, underlyingCalls;
    }
    var dbTokens, missingTokens := first.value.0, first.value.1;

    var tokensData := InsertRows(map[], dbTokens);
    assert tokensData == MapOf(dbTokens);
    if |tokensData| != |tokens| {
      // panic!("inconsistent amount of tokens to parse the logs")
      CountCheckFailed(db.tokens, rpc, tokens, calls, dbTokens);
      return Failure(InconsistentTokenCount), calls, underlyingCalls;
    }

    var underlyingTokens := CollectUnderlying(dbTokens);
    var second;
    second, underlyingCalls := GetTokensMetadata(db, rpc, underlyingTokens);
    if second.Failure? {
      SecondFetchFailed(db.tokens, rpc, tokens, calls, dbTokens, underlyingCalls);
      return Failure(FetchFailed), calls, underlyingCalls;
    }
    var dbUnderlyingTokens, missingUnderlyingTokens := second.value.0, second.value.1;

    tokensData := InsertRows(tokensData, dbUnderlyingTokens);

    missingTokens := missingTokens + missingUnderlyingTokens;
    // tokens.rs:78-80: the list is empty, so `store_token_details` is not reached
    assert missingTokens == [];

    BothRoundsSucceeded(db.tokens, rpc, tokens, calls, dbTokens, underlyingCalls, dbUnderlyingTokens);
    outcome := Success(tokensData);
  }

  /** The store after the corrected `get_tokens`: unchanged on failure; on success the records
      fetched in both rounds are added, which for a keyed fetcher are the records of every
      address the store lacked. */
  ghost predicate StoreAfter(before: map<Address, TokenDetails>, after: map<Address, TokenDetails>, rpc: Rpc,
                             tokens: set<Address>, outcome: Result<map<Address, TokenDetails>, Failure>,
                             calls: seq<Address>, underlyingCalls: seq<Address>)
  {
    && (outcome.Failure? ==> after == before)
    && (outcome.Success? ==>
          && (forall i | 0 <= i < |calls + underlyingCalls| :: (calls + underlyingCalls)[i] in rpc.metadata)
          && after == before + MapOf(Fetches(rpc, calls + underlyingCalls)))
    && (outcome.Success? && rpc.KeyedByAddress() ==>
          && Resolvable(before, rpc, tokens)
          && var u := Components(Records(before, rpc, tokens));
          && (forall a | a in (tokens + u) - before.Keys :: a in rpc.metadata)
          && after == before + FetchedMap(rpc, (tokens + u) - before.Keys))
  }

  /** `get_tokens` as evidently intended: the records fetched in both rounds are written back,
      at the same point as in the code (after the second round). The outcome and the fetches are
      those of `get_tokens`, judged against the store as it was before the call. */
  method GetTokensCorrected(db: Database, rpc: Rpc, tokens: set<Address>)
    returns (outcome: Result<map<Address, TokenDetails>, Failure>,
             ghost calls: seq<Address>, ghost underlyingCalls: seq<Address>)
    requires db.Valid()
    modifies db
    ensures db.Valid()
    ensures GetTokensOutcome(old(db.tokens), rpc, tokens, outcome, calls, underlyingCalls)
    ensures StoreAfter(old(db.tokens), db.tokens, rpc, tokens, outcome, calls, underlyingCalls)
  {
    underlyingCalls := [];
    var first;
    first, calls := GetTokensMetadataCorrected(db, rpc, tokens);
    if first.Failure? {
      FirstFetchFailed(db.tokens, rpc, tokens, calls);
      return Failure(FetchFailed), calls, underlyingCalls;
    }
    var dbTokens, missingTokens := first.value.0, first.value.1;

    var tokensData := InsertRows(map[], dbTokens);
    assert tokensData == MapOf(dbTokens);
    if |tokensData| != |tokens| {
      CountCheckFailed(db.tokens, rpc, tokens, calls, dbTokens);
      return Failure(InconsistentTokenCount), calls, underlyingCalls;
    }

    var underlyingTokens := CollectUnderlying(dbTokens);
    var second;
    second, underlyingCalls := GetTokensMetadataCorrected(db, rpc, underlyingTokens);
    if second.Failure? {
      SecondFetchFailed(db.tokens, rpc, tokens, calls, dbTokens, underlyingCalls);
      return Failure(FetchFailed), calls, underlyingCalls;
    }
    var dbUnderlyingTokens, missingUnderlyingTokens := second.value.0, second.value.1;

    tokensData := InsertRows(tokensData, dbUnderlyingTokens);

    missingTokens := missingTokens + missingUnderlyingTokens;
    FetchesConcat(rpc, calls, underlyingCalls);
    ghost var before := db.tokens;
    if |missingTokens| > 0 {
      db.StoreTokenDetails(missingTokens);
    } else {
      UnionEmpty(db.tokens);
    }

    outcome := Success(tokensData);
    CorrectedSucceeded(before, db.tokens, rpc, tokens, calls, dbTokens, underlyingCalls, dbUnderlyingTokens);
  }

  lemma UnionEmpty<K, V>(m: map<K, V>)
    ensures m + map[] == m
  {
  }

  lemma CorrectedSucceeded(before: map<Address, TokenDetails>, after: map<Address, TokenDetails>, rpc: Rpc,
                           tokens: set<Address>, calls: seq<Address>, found: seq<TokenDetails>,
                           underlyingCalls: seq<Address>, foundUnderlying: seq<TokenDetails>)
    requires StoreKeyed(before)
    requires NoDup(calls) && Elements(calls) == tokens - before.Keys
    requires IsRound(before, rpc, tokens, calls, found)
    requires |MapOf(found)| == |tokens|
    requires NoDup(underlyingCalls) && Elements(underlyingCalls) == Components(Elements(found)) - before.Keys
    requires IsRound(before, rpc, Components(Elements(found)), underlyingCalls, foundUnderlying)
    requires forall i | 0 <= i < |calls + underlyingCalls| :: (calls + underlyingCalls)[i] in rpc.metadata
    requires after == before + MapOf(Fetches(rpc, calls + underlyingCalls))
    ensures var outcome := Success(MapOf(found) + MapOf(foundUnderlying));
            && GetTokensOutcome(before, rpc, tokens, outcome, calls, underlyingCalls)
            && StoreAfter(before, after, rpc, tokens, outcome, calls, underlyingCalls)
  {
    BothRoundsSucceeded(before, rpc, tokens, calls, found, underlyingCalls, foundUnderlying);
    RoundFacts(before, rpc, tokens, calls, found);
    ResolveTokensSuccess(before, rpc, tokens);
    WrittenBack(before, after, rpc, tokens, Success(MapOf(found) + MapOf(foundUnderlying)), calls, underlyingCalls);
  }

  lemma FetchesConcat(rpc: Rpc, calls: seq<Address>, more: seq<Address>)
    requires forall i | 0 <= i < |calls| :: calls[i] in rpc.metadata
    requires forall i | 0 <= i < |more| :: more[i] in rpc.metadata
    ensures forall i | 0 <= i < |calls + more| :: (calls + more)[i] in rpc.metadata
    ensures Fetches(rpc, calls) + Fetches(rpc, more) == Fetches(rpc, calls + more)
  {
  }

  /** The corrected write-back stores the records fetched in both rounds; for a keyed fetcher
      these are exactly the fetched addresses' records. */
  lemma WrittenBack(before: map<Address, TokenDetails>, after: map<Address, TokenDetails>, rpc: Rpc,
                    tokens: set<Address>, outcome: Result<map<Address, TokenDetails>, Failure>,
                    calls: seq<Address>, underlyingCalls: seq<Address>)
    requires outcome.Success?
    requires forall i | 0 <= i < |calls + underlyingCalls| :: (calls + underlyingCalls)[i] in rpc.metadata
    requires ResolveTokens(before, rpc, tokens).Success?
    requires Elements(calls) == tokens - before.Keys
    requires Elements(underlyingCalls) == Components(Records(before, rpc, tokens)) - before.Keys
    requires after == before + MapOf(Fetches(rpc, calls + underlyingCalls))
    ensures StoreAfter(before, after, rpc, tokens, outcome, calls, underlyingCalls)
  {
    var cs := calls + underlyingCalls;
    var u := Components(Records(before, rpc, tokens));
    ElementsConcat(calls, underlyingCalls);
    DifferenceUnion(tokens, u, before.Keys);
    if rpc.KeyedByAddress() {
      var rows := Fetches(rpc, cs);
      forall a | a in Elements(cs) ensures a in rpc.metadata {
        var i :| 0 <= i < |cs| && cs[i] == a;
      }
      var want := FetchedMap(rpc, Elements(cs));
      assert Addresses(rows) == cs;
      forall i | 0 <= i < |rows| ensures rows[i].token in want && want[rows[i].token] == rows[i] {
        assert cs[i] in Elements(cs);
      }
      MapOfAgrees(rows, want);
      MapExtensional(MapOf(rows), want);
    }
  }

  lemma DifferenceUnion<T>(a: set<T>, b: set<T>, k: set<T>)
    ensures (a - k) + (b - k) == (a + b) - k
  {
  }

  // ---------------------------------------------------------------------------------------
  // Repeated requests

  /** Two successive `get_tokens` calls as written: the first leaves the store as it was, so the
      second fetches the same missing addresses again, fails exactly when the first did, and for
      a keyed fetcher returns the same map. */
  method RepeatAsWritten(db: Database, rpc: Rpc, tokens: set<Address>)
    returns (first: Result<map<Address, TokenDetails>, Failure>, second: Result<map<Address, TokenDetails>, Failure>,
             ghost firstCalls: seq<Address>, ghost secondCalls: seq<Address>)
    requires db.Valid()
    ensures Elements(firstCalls) == tokens - db.tokens.Keys && Elements(secondCalls) == Elements(firstCalls)
    ensures second.Failure? <==> first.Failure?
    ensures rpc.KeyedByAddress() ==> second == first
  {
    ghost var underlying1, underlying2;
    first, firstCalls, underlying1 := GetTokens(db, rpc, tokens);
    second, secondCalls, underlying2 := GetTokens(db, rpc, tokens);
  }

  /** Two successive corrected `get_tokens` calls: once the first has succeeded, the second is
      answered from the store alone (no fetch in either round) and returns the same map. */
  method RepeatCorrected(db: Database, rpc: Rpc, tokens: set<Address>)
    returns (first: Result<map<Address, TokenDetails>, Failure>, second: Result<map<Address, TokenDetails>, Failure>,
             ghost secondCalls: seq<Address>, ghost secondUnderlyingCalls: seq<Address>)
    requires db.Valid() && rpc.KeyedByAddress()
    modifies db
    ensures first.Success? ==> second == first && secondCalls == [] && secondUnderlyingCalls == []
  {
    ghost var store := db.tokens;
    ghost var calls1, underlying1;
    first, calls1, underlying1 := GetTokensCorrected(db, rpc, tokens);
    ghost var store' := db.tokens;
    second, secondCalls, secondUnderlyingCalls := GetTokensCorrected(db, rpc, tokens);
    if first.Success? {
      WriteBackMakesRepeatAHit(store, rpc, tokens);
      ResolveTokensSuccess(store', rpc, tokens);
      EmptyElements(secondCalls);
      EmptyElements(secondUnderlyingCalls);
    }
  }

  lemma EmptyElements<T>(s: seq<T>)
    requires NoDup(s) && Elements(s) == {}
    ensures s == []
  {
    NoDupCard(s);
  }

  /** The write-back list is built only after both rounds, so an unstored address that is both
      requested and a component of a requested pool is fetched in both rounds. */
  lemma FetchedInBothRounds(pool: TokenDetails, c0: TokenDetails, c1: TokenDetails,
                            outcome: Result<map<Address, TokenDetails>, Failure>,
                            calls: seq<Address>, underlyingCalls: seq<Address>)
    requires pool.token0 == Some(c0.token) && pool.token1 == Some(c1.token)
    requires c0.token0.None? && c0.token1.None?
    requires pool.token != c0.token && pool.token != c1.token && c0.token != c1.token
    requires GetTokensOutcome(map[], Rpc(map[pool.token := pool, c0.token := c0, c1.token := c1]),
                              {pool.token, c0.token}, outcome, calls, underlyingCalls)
    ensures c0.token in Elements(calls) && c0.token in Elements(underlyingCalls)
  {
    PoolWithComponentScenario(pool, c0, c1);
  }

  /** The second round's `insert` (tokens.rs:72-74) replaces a first-round entry: when the
      fetcher answers `x` with a record `rx` of the pool's component `b`, the first round puts
      `rx` under `b`, and the result holds the second round's record `rb` there instead. */
  lemma SecondRoundReplaces(pool: TokenDetails, x: Address, rx: TokenDetails, rb: TokenDetails,
                            outcome: Result<map<Address, TokenDetails>, Failure>,
                            calls: seq<Address>, underlyingCalls: seq<Address>)
    requires pool.token0 == Some(rb.token) && pool.token1.None?
    requires rx.token == rb.token && rx.token0.None? && rx.token1.None?
    requires pool.token != x && pool.token != rb.token && x != rb.token
    requires GetTokensOutcome(map[], Rpc(map[pool.token := pool, x := rx, rb.token := rb]),
                              {pool.token, x}, outcome, calls, underlyingCalls)
    ensures rx in Records(map[], Rpc(map[pool.token := pool, x := rx, rb.token := rb]), {pool.token, x})
    ensures outcome.Success? && rb.token in outcome.value && outcome.value[rb.token] == rb
  {
    ReplacedEntryScenario(pool, x, rx, rb);
    SingleComponentEntry(map[], Rpc(map[pool.token := pool, x := rx, rb.token := rb]), {pool.token, x},
                         outcome, calls, underlyingCalls, rb.token, rb);
  }

  /** When the second round yields a single record `r` under key `k`, a successful outcome holds
      `r` under `k`. */
  lemma SingleComponentEntry(store: map<Address, TokenDetails>, rpc: Rpc, tokens: set<Address>,
                             outcome: Result<map<Address, TokenDetails>, Failure>,
                             calls: seq<Address>, underlyingCalls: seq<Address>, k: Address, r: TokenDetails)
    requires GetTokensOutcome(store, rpc, tokens, outcome, calls, underlyingCalls)
    requires ResolveTokens(store, rpc, tokens).Success?
    requires Records(store, rpc, Components(Records(store, rpc, tokens))) == {r}
    requires RecordKeys(store, rpc, Components(Records(store, rpc, tokens))) == {k}
    ensures outcome.Success? && k in outcome.value && outcome.value[k] == r
  {
    assert outcome.value[k] in {r};
  }
}
