/** Reference definitions for token metadata resolution (`src/utils/tokens.rs`): what one round
    of store lookup plus fetch resolves, which component ("underlying") addresses the first round
    discovers, and the two-round result. The imperative model in module Tokens is proved to
    compute these. */
module TokenSpec {
  import opened Wrappers

  type Address = string

  /** A row of the token metadata table. `token0` / `token1` are the two component tokens of a
      pool token; plain tokens have neither. */
  datatype TokenDetails = TokenDetails(
    token: Address,
    chain: nat,
    name: string,
    symbol: string,
    decimals: nat,
    token0: Option<Address>,
    token1: Option<Address>)

  /** The chain metadata fetcher `Rpc::get_token_metadata` as a partial function: an address
      outside `metadata` stands for a call that fails. Nothing forces the record returned for an
      address to carry that same address. */
  datatype Rpc = Rpc(metadata: map<Address, TokenDetails>) {

    function GetTokenMetadata(token: Address): Option<TokenDetails>
    {
      if token in metadata then Some(metadata[token]) else None
    }

    /** The fetcher answers for an address with a record of that address. */
    predicate KeyedByAddress()
    {
      forall a | a in metadata :: metadata[a].token == a
    }
  }

  /** A store holds each record under its own address. */
  predicate StoreKeyed(store: map<Address, TokenDetails>)
  {
    forall a | a in store :: store[a].token == a
  }

  /** What one round yields for an address: the stored record, else the fetched one. */
  function Resolve(store: map<Address, TokenDetails>, rpc: Rpc, a: Address): (r: Option<TokenDetails>)
    ensures a in store ==> r == Some(store[a])
    ensures a !in store ==> r == rpc.GetTokenMetadata(a)
  {
    if a in store then Some(store[a]) else rpc.GetTokenMetadata(a)
  }

  /** Every fetch a round over `s` makes succeeds. */
  predicate Resolvable(store: map<Address, TokenDetails>, rpc: Rpc, s: set<Address>)
  {
    forall a | a in s :: Resolve(store, rpc, a).Some?
  }

  /** The records a round over `s` yields. */
  function Records(store: map<Address, TokenDetails>, rpc: Rpc, s: set<Address>): set<TokenDetails>
    requires Resolvable(store, rpc, s)
  {
    set a | a in s :: Resolve(store, rpc, a).value
  }

  /** The addresses those records carry: the keys they get in the result map. */
  function RecordKeys(store: map<Address, TokenDetails>, rpc: Rpc, s: set<Address>): set<Address>
    requires Resolvable(store, rpc, s)
  {
    set a | a in s :: Resolve(store, rpc, a).value.token
  }

  /** The component addresses named by some records. */
  function Components(records: set<TokenDetails>): set<Address>
  {
    (set r | r in records && r.token0.Some? :: r.token0.value)
      + (set r | r in records && r.token1.Some? :: r.token1.value)
  }

  /** A round's records keyed by the address they were requested under. */
  function ResolvedMap(store: map<Address, TokenDetails>, rpc: Rpc, s: set<Address>): map<Address, TokenDetails>
    requires Resolvable(store, rpc, s)
  {
    map a | a in s :: Resolve(store, rpc, a).value
  }

  /** Why `get_tokens` aborts: an `unwrap` on a failed fetch (tokens.rs:32), or the count check
      (tokens.rs:53-55). */
  datatype Failure = FetchFailed | InconsistentTokenCount

  /** The first round resolves and passes the count check, so the second round runs. */
  predicate PassesFirstRound(store: map<Address, TokenDetails>, rpc: Rpc, tokens: set<Address>)
  {
    Resolvable(store, rpc, tokens) && |RecordKeys(store, rpc, tokens)| == |tokens|
  }

  /** The two rounds of `get_tokens`: the requested tokens, then the components of their
      records, and no further. The map is exact for a fetcher that is keyed by address. */
  function ResolveTokens(store: map<Address, TokenDetails>, rpc: Rpc, tokens: set<Address>)
    : Result<map<Address, TokenDetails>, Failure>
  {
    if !Resolvable(store, rpc, tokens) then Failure(FetchFailed)
    else if !PassesFirstRound(store, rpc, tokens) then Failure(InconsistentTokenCount)
    else
      var underlying := Components(Records(store, rpc, tokens));
      if !Resolvable(store, rpc, underlying) then Failure(FetchFailed)
      else Success(ResolvedMap(store, rpc, tokens) + ResolvedMap(store, rpc, underlying))
  }

  // ---------------------------------------------------------------------------------------
  // Properties

  /** Map equality from keys and values, stated for any key type. */
  lemma MapExtensional<K, V>(m: map<K, V>, n: map<K, V>)
    requires m.Keys == n.Keys && forall k | k in m :: m[k] == n[k]
    ensures m == n
  {
  }

  lemma MapLiteralUnion<K, V>(a: K, va: V, b: K, vb: V, c: K, vc: V)
    ensures map[a := va] + map[b := vb, c := vc] == map[a := va, b := vb, c := vc]
  {
  }

  /** With a keyed store and fetcher every record carries its own address, so the count check
      of tokens.rs:53 can never fire. */
  lemma KeyedRoundKeys(store: map<Address, TokenDetails>, rpc: Rpc, s: set<Address>)
    requires StoreKeyed(store) && rpc.KeyedByAddress() && Resolvable(store, rpc, s)
    ensures RecordKeys(store, rpc, s) == s
  {
    forall a | a in s ensures a in RecordKeys(store, rpc, s) {
      assert Resolve(store, rpc, a).value.token == a;
    }
  }

  lemma KeyedNeverInconsistent(store: map<Address, TokenDetails>, rpc: Rpc, tokens: set<Address>)
    requires StoreKeyed(store) && rpc.KeyedByAddress()
    ensures ResolveTokens(store, rpc, tokens) != Failure(InconsistentTokenCount)
  {
    if Resolvable(store, rpc, tokens) {
      KeyedRoundKeys(store, rpc, tokens);
    }
  }

  /** The count check only compares sizes: a fetcher that answers for "A" with a record of "C"
      passes it while "A" gets no entry. */
  lemma CountCheckAdmitsMissingKey()
    ensures var rec := TokenDetails("C", 1, "Coin", "C", 18, None, None);
            var rpc := Rpc(map["A" := rec, "B" := rec.(token := "B")]);
            var tokens := {"A", "B"};
            && Resolvable(map[], rpc, tokens)
            && |RecordKeys(map[], rpc, tokens)| == |tokens|
            && "A" !in RecordKeys(map[], rpc, tokens)
  {
    var rec := TokenDetails("C", 1, "Coin", "C", 18, None, None);
    var rpc := Rpc(map["A" := rec, "B" := rec.(token := "B")]);
    var tokens := {"A", "B"};
    assert Resolve(map[], rpc, "A").value.token == "C";
    assert Resolve(map[], rpc, "B").value.token == "B";
    assert RecordKeys(map[], rpc, tokens) == {"C", "B"};
  }

  /** Every requested address is a key of the result, and so is every component of a requested
      token; nothing else is (depth 2). */
  lemma ResultCoverage(store: map<Address, TokenDetails>, rpc: Rpc, tokens: set<Address>)
    requires ResolveTokens(store, rpc, tokens).Success?
    ensures var m := ResolveTokens(store, rpc, tokens).value;
            m.Keys == tokens + Components(Records(store, rpc, tokens))
  {
  }

  /** Both rounds read the same store and the same fetcher, so an address requested in both
      rounds gets the same record from each: in the reference the second round's overwrite of
      tokens.rs:73 never changes an entry, and a component holds the record a lookup of it gives.
      A changed entry needs a record keyed under an address other than its own (see
      `Tokens.SecondRoundReplaces`). */
  lemma RoundsAgree(store: map<Address, TokenDetails>, rpc: Rpc, tokens: set<Address>, a: Address)
    requires ResolveTokens(store, rpc, tokens).Success?
    requires a in Components(Records(store, rpc, tokens))
    ensures ResolveTokens(store, rpc, tokens).value[a] == Resolve(store, rpc, a).value
    ensures var u := Components(Records(store, rpc, tokens));
            a in tokens ==> ResolvedMap(store, rpc, tokens)[a] == ResolvedMap(store, rpc, u)[a]
  {
  }

  /** A component address comes from the record of a requested token. */
  lemma ComponentOrigin(store: map<Address, TokenDetails>, rpc: Rpc, tokens: set<Address>, c: Address)
    requires Resolvable(store, rpc, tokens)
    requires c in Components(Records(store, rpc, tokens))
    ensures exists a | a in tokens :: Resolve(store, rpc, a).value.token0 == Some(c)
                                      || Resolve(store, rpc, a).value.token1 == Some(c)
  {
    var recs := Records(store, rpc, tokens);
    var r :| r in recs && (r.token0 == Some(c) || r.token1 == Some(c));
    var a :| a in tokens && Resolve(store, rpc, a).value == r;
  }

  /** Components of components are not looked up: a pool whose component is itself a pool adds
      only its direct components. */
  lemma NoThirdRound(store: map<Address, TokenDetails>, rpc: Rpc, tokens: set<Address>, c: Address)
    requires ResolveTokens(store, rpc, tokens).Success?
    requires var u := Components(Records(store, rpc, tokens));
             c in Components(Records(store, rpc, u)) && c !in tokens && c !in u
    ensures c !in ResolveTokens(store, rpc, tokens).value
  {
  }

  /** Two stores that resolve every address of `s` alike give the same round over `s`. */
  lemma SameRound(store: map<Address, TokenDetails>, store': map<Address, TokenDetails>, rpc: Rpc, s: set<Address>)
    requires Resolvable(store, rpc, s)
    requires forall a | a in s :: Resolve(store', rpc, a) == Resolve(store, rpc, a)
    ensures Resolvable(store', rpc, s)
    ensures Records(store', rpc, s) == Records(store, rpc, s)
    ensures RecordKeys(store', rpc, s) == RecordKeys(store, rpc, s)
    ensures ResolvedMap(store', rpc, s) == ResolvedMap(store, rpc, s)
  {
  }

  /** `ResolveTokens` succeeds exactly when both rounds resolve and the count check passes. */
  lemma ResolveTokensSuccess(store: map<Address, TokenDetails>, rpc: Rpc, tokens: set<Address>)
    ensures ResolveTokens(store, rpc, tokens).Success? <==>
              && Resolvable(store, rpc, tokens) && |RecordKeys(store, rpc, tokens)| == |tokens|
              && Resolvable(store, rpc, Components(Records(store, rpc, tokens)))
    ensures ResolveTokens(store, rpc, tokens).Success? ==>
              var u := Components(Records(store, rpc, tokens));
              ResolveTokens(store, rpc, tokens).value == ResolvedMap(store, rpc, tokens) + ResolvedMap(store, rpc, u)
  {
  }

  /** A round over stored addresses yields the stored records. */
  lemma StoredRound(store: map<Address, TokenDetails>, rpc: Rpc, s: set<Address>)
    requires StoreKeyed(store) && s <= store.Keys
    ensures Resolvable(store, rpc, s)
    ensures Records(store, rpc, s) == set a | a in s :: store[a]
    ensures RecordKeys(store, rpc, s) == s
    ensures ResolvedMap(store, rpc, s) == map a | a in s :: store[a]
  {
    assert Resolvable(store, rpc, s);
    forall a | a in s ensures a in RecordKeys(store, rpc, s) {
      assert Resolve(store, rpc, a).value.token == a;
    }
  }

  /** When every address the two rounds need is stored, the result is the stored records and
      no fetched record enters it. */
  lemma FullCacheHit(store: map<Address, TokenDetails>, rpc: Rpc, tokens: set<Address>)
    requires StoreKeyed(store) && tokens <= store.Keys
    requires Components(set a | a in tokens :: store[a]) <= store.Keys
    ensures var u := Components(set a | a in tokens :: store[a]);
            ResolveTokens(store, rpc, tokens) == Success(map a | a in tokens + u :: store[a])
  {
    var u := Components(set a | a in tokens :: store[a]);
    StoredRound(store, rpc, tokens);
    StoredRound(store, rpc, u);
    ResolveTokensSuccess(store, rpc, tokens);
    MapExtensional(ResolvedMap(store, rpc, tokens) + ResolvedMap(store, rpc, u), map a | a in tokens + u :: store[a]);
  }

  /** The records fetched for the addresses in `s`, as the corrected write-back stores them. */
  function FetchedMap(rpc: Rpc, s: set<Address>): (m: map<Address, TokenDetails>)
    requires forall a | a in s :: a in rpc.metadata
    ensures m.Keys == s
  {
    map a | a in s :: rpc.metadata[a]
  }

  /** After the corrected write-back, a repeat request resolves from the store alone: both rounds
      find every address stored, and the result is the same. */
  lemma WriteBackMakesRepeatAHit(store: map<Address, TokenDetails>, rpc: Rpc, tokens: set<Address>)
    requires StoreKeyed(store) && rpc.KeyedByAddress()
    requires ResolveTokens(store, rpc, tokens).Success?
    ensures var u := Components(Records(store, rpc, tokens));
            var store' := store + FetchedMap(rpc, (tokens + u) - store.Keys);
            && StoreKeyed(store')
            && tokens + u <= store'.Keys
            && Resolvable(store', rpc, tokens) && Records(store', rpc, tokens) == Records(store, rpc, tokens)
            && ResolveTokens(store', rpc, tokens) == ResolveTokens(store, rpc, tokens)
  {
    ResolveTokensSuccess(store, rpc, tokens);
    var u := Components(Records(store, rpc, tokens));
    var store' := store + FetchedMap(rpc, (tokens + u) - store.Keys);
    WrittenBackAlike(store, rpc, tokens + u);
    SameRound(store, store', rpc, tokens);
    SameRound(store, store', rpc, u);
    ResolveTokensSuccess(store', rpc, tokens);
  }

  /** Writing back the fetched records of a resolvable set keeps the store keyed and changes no
      answer for that set. */
  lemma WrittenBackAlike(store: map<Address, TokenDetails>, rpc: Rpc, s: set<Address>)
    requires StoreKeyed(store) && rpc.KeyedByAddress() && Resolvable(store, rpc, s)
    ensures forall a | a in s - store.Keys :: a in rpc.metadata
    ensures var store' := store + FetchedMap(rpc, s - store.Keys);
            && StoreKeyed(store') && s <= store'.Keys
            && forall a | a in s :: Resolve(store', rpc, a) == Resolve(store, rpc, a)
  {
    forall a | a in s - store.Keys ensures a in rpc.metadata {
      assert Resolve(store, rpc, a).Some?;
    }
  }

  lemma OneAddressRound(store: map<Address, TokenDetails>, rpc: Rpc, a: Address, r: TokenDetails)
    requires Resolve(store, rpc, a) == Some(r)
    ensures Resolvable(store, rpc, {a})
    ensures Records(store, rpc, {a}) == {r} && RecordKeys(store, rpc, {a}) == {r.token}
    ensures ResolvedMap(store, rpc, {a}) == map[a := r]
  {
    MapExtensional(ResolvedMap(store, rpc, {a}), map[a := r]);
  }

  lemma TwoAddressRound(store: map<Address, TokenDetails>, rpc: Rpc, a: Address, ra: TokenDetails, b: Address, rb: TokenDetails)
    requires Resolve(store, rpc, a) == Some(ra) && Resolve(store, rpc, b) == Some(rb)
    ensures Resolvable(store, rpc, {a, b})
    ensures ResolvedMap(store, rpc, {a, b}) == map[a := ra, b := rb]
  {
    MapExtensional(ResolvedMap(store, rpc, {a, b}), map[a := ra, b := rb]);
  }

  lemma PoolComponents(pool: TokenDetails, c0: Address, c1: Address)
    requires pool.token0 == Some(c0) && pool.token1 == Some(c1)
    ensures Components({pool}) == {c0, c1}
  {
    assert (set r | r in {pool} && r.token0.Some? :: r.token0.value) == {c0};
    assert (set r | r in {pool} && r.token1.Some? :: r.token1.value) == {c1};
  }

  /** The pool scenario: requesting only a pool `pool` whose components are unknown to the
      store fetches all three and yields three entries. */
  lemma PoolScenario(pool: TokenDetails, c0: TokenDetails, c1: TokenDetails)
    requires pool.token0 == Some(c0.token) && pool.token1 == Some(c1.token)
    requires pool.token != c0.token && pool.token != c1.token && c0.token != c1.token
    ensures var rpc := Rpc(map[pool.token := pool, c0.token := c0, c1.token := c1]);
            ResolveTokens(map[], rpc, {pool.token})
            == Success(map[pool.token := pool, c0.token := c0, c1.token := c1])
  {
    var rpc := Rpc(map[pool.token := pool, c0.token := c0, c1.token := c1]);
    var none: map<Address, TokenDetails> := map[];
    assert Resolve(none, rpc, pool.token) == Some(pool);
    assert Resolve(none, rpc, c0.token) == Some(c0) && Resolve(none, rpc, c1.token) == Some(c1);
    OneAddressRound(none, rpc, pool.token, pool);
    PoolComponents(pool, c0.token, c1.token);
    TwoAddressRound(none, rpc, c0.token, c0, c1.token, c1);
    ResolveTokensSuccess(none, rpc, {pool.token});
    MapLiteralUnion(pool.token, pool, c0.token, c0, c1.token, c1);
  }

  /** Requesting a pool together with one of its components: the first round resolves both
      (the count check passes), and that component is again among the addresses of the second
      round. */
  lemma PoolWithComponentScenario(pool: TokenDetails, c0: TokenDetails, c1: TokenDetails)
    requires pool.token0 == Some(c0.token) && pool.token1 == Some(c1.token)
    requires c0.token0.None? && c0.token1.None?
    requires pool.token != c0.token && pool.token != c1.token && c0.token != c1.token
    ensures var rpc := Rpc(map[pool.token := pool, c0.token := c0, c1.token := c1]);
            var tokens := {pool.token, c0.token};
            && PassesFirstRound(map[], rpc, tokens)
            && Components(Records(map[], rpc, tokens)) == {c0.token, c1.token}
  {
    var rpc := Rpc(map[pool.token := pool, c0.token := c0, c1.token := c1]);
    var none: map<Address, TokenDetails> := map[];
    assert Resolve(none, rpc, pool.token) == Some(pool) && Resolve(none, rpc, c0.token) == Some(c0);
    TwoAddressRecords(none, rpc, pool.token, pool, c0.token, c0);
    PoolAndPlainComponents(pool, c0, c1.token);
  }

  lemma TwoAddressRecords(store: map<Address, TokenDetails>, rpc: Rpc, a: Address, ra: TokenDetails, b: Address, rb: TokenDetails)
    requires Resolve(store, rpc, a) == Some(ra) && Resolve(store, rpc, b) == Some(rb)
    ensures Resolvable(store, rpc, {a, b})
    ensures Records(store, rpc, {a, b}) == {ra, rb}
    ensures RecordKeys(store, rpc, {a, b}) == {ra.token, rb.token}
  {
  }

  lemma PoolAndPlainComponents(pool: TokenDetails, plain: TokenDetails, c1: Address)
    requires pool.token0 == Some(plain.token) && pool.token1 == Some(c1)
    requires plain.token0.None? && plain.token1.None?
    ensures Components({pool, plain}) == {plain.token, c1}
  {
    assert (set r | r in {pool, plain} && r.token0.Some? :: r.token0.value) == {plain.token};
    assert (set r | r in {pool, plain} && r.token1.Some? :: r.token1.value) == {c1};
  }

  /** A request {pool, x} where the fetcher answers `x` with a record `rx` of the pool's only
      component `b`: the first round passes the count check with `rx` under `b`, and the second
      round resolves `b` itself to `rb`. */
  lemma ReplacedEntryScenario(pool: TokenDetails, x: Address, rx: TokenDetails, rb: TokenDetails)
    requires pool.token0 == Some(rb.token) && pool.token1.None?
    requires rx.token == rb.token && rx.token0.None? && rx.token1.None?
    requires pool.token != x && pool.token != rb.token && x != rb.token
    ensures var rpc := Rpc(map[pool.token := pool, x := rx, rb.token := rb]);
            var tokens := {pool.token, x};
            && ResolveTokens(map[], rpc, tokens).Success?
            && Records(map[], rpc, tokens) == {pool, rx}
            && Components(Records(map[], rpc, tokens)) == {rb.token}
            && Records(map[], rpc, Components(Records(map[], rpc, tokens))) == {rb}
            && RecordKeys(map[], rpc, Components(Records(map[], rpc, tokens))) == {rb.token}
  {
    var rpc := Rpc(map[pool.token := pool, x := rx, rb.token := rb]);
    var none: map<Address, TokenDetails> := map[];
    assert Resolve(none, rpc, pool.token) == Some(pool) && Resolve(none, rpc, x) == Some(rx);
    assert Resolve(none, rpc, rb.token) == Some(rb);
    TwoAddressRecords(none, rpc, pool.token, pool, x, rx);
    assert |{pool.token, rb.token}| == 2 == |{pool.token, x}|;
    PoolWithPlainComponent(pool, rx, rb.token);
    OneAddressRound(none, rpc, rb.token, rb);
  }

  lemma PoolWithPlainComponent(pool: TokenDetails, plain: TokenDetails, c0: Address)
    requires pool.token0 == Some(c0) && pool.token1.None?
    requires plain.token0.None? && plain.token1.None?
    ensures Components({pool, plain}) == {c0}
  {
    assert (set r | r in {pool, plain} && r.token0.Some? :: r.token0.value) == {c0};
  }
}
