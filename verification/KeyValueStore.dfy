/**
 The key-value face of PostgresStore: set, get and delete routed by key prefix to a write-once
 token table or to the response cache, related to what a history of calls says should be stored.
 */
module KeyValueStore {
  import opened Options

  datatype Kind = EmailVerify | PasswordReset | InviteToken

  datatype Route = Token(kind: Kind, token: string) | Cache(key: string)

  /** SHA-256, taken to be injective: a digest determines what was hashed. */
  datatype Digest = Sha256(preimage: string)

  datatype TokenRow = TokenRow(user: Option<string>, kind: Kind, expires: int)
  datatype CacheRow = CacheRow(data: string, expires: int)
  datatype Tables = Tables(tokens: map<Digest, TokenRow>, cache: map<string, CacheRow>)

  datatype Op =
    | Set(key: string, value: string, ex: Option<int>, nx: bool)
    | Delete(key: string)

  /** A committed statement and the database time at which it ran. */
  datatype Event = Event(at: int, op: Op)

  const DEFAULT_TTL := 86400

  function Prefix(kind: Kind): string {
    match kind
    case EmailVerify => "email_verify:"
    case PasswordReset => "password_reset:"
    case InviteToken => "invite_token:"
  }

  /** refresh_token:, doc_request: and unprefixed keys all live in the response cache whole. */
  function RouteOf(key: string): Route {
    if Prefix(EmailVerify) <= key then Token(EmailVerify, key[|Prefix(EmailVerify)|..])
    else if Prefix(PasswordReset) <= key then Token(PasswordReset, key[|Prefix(PasswordReset)|..])
    else if Prefix(InviteToken) <= key then Token(InviteToken, key[|Prefix(InviteToken)|..])
    else Cache(key)
  }

  /** Zero counts as no TTL; a negative one is kept. */
  function Ttl(ex: Option<int>): int {
    if ex == None || ex.value == 0 then DEFAULT_TTL else ex.value
  }

  /** An empty value is stored as NULL. */
  function NewTokenRow(value: string, kind: Kind, expires: int): TokenRow {
    TokenRow(if value == "" then None else Some(value), kind, expires)
  }

  function Step(t: Tables, e: Event): (Tables, bool) {
    match e.op
    case Set(key, value, ex, nx) =>
      (match RouteOf(key)
       case Token(kind, token) =>
         var h := Sha256(token);
         if h !in t.tokens then
           (t.(tokens := t.tokens[h := NewTokenRow(value, kind, e.at + Ttl(ex))]), true)
         else if nx then (t, false)
         else (t.(tokens := t.tokens[h := t.tokens[h].(expires := e.at + Ttl(ex))]), true)
       case Cache(_) =>
         if nx && key in t.cache then (t, false)
         else (t.(cache := t.cache[key := CacheRow(value, e.at + Ttl(ex))]), true))
    case Delete(key) =>
      (match RouteOf(key)
       case Token(kind, token) =>
         var h := Sha256(token);
         if h in t.tokens && t.tokens[h].kind == kind then (t.(tokens := t.tokens - {h}), true) else (t, true)
       case Cache(_) => (t.(cache := t.cache - {key}), true))
  }

  function Lookup(t: Tables, key: string, now: int): Option<string> {
    match RouteOf(key)
    case Token(kind, token) =>
      var h := Sha256(token);
      if h in t.tokens && t.tokens[h].kind == kind && t.tokens[h].expires > now then t.tokens[h].user else None
    case Cache(_) =>
      if key in t.cache && t.cache[key].expires > now then Some(t.cache[key].data) else None
  }

  function Run(h: seq<Event>): Tables {
    if h == [] then Tables(map[], map[]) else Step(Run(h[..|h| - 1]), h[|h| - 1]).0
  }

  // ---- routing ----

  /** Every token of every kind has exactly one key, and every other key is a cache key. */
  lemma RouteIsExact(key: string, kind: Kind, token: string)
    ensures RouteOf(key) == Token(kind, token) <==> key == Prefix(kind) + token
    ensures RouteOf(key).Cache? ==> RouteOf(key).key == key
  {
    assert (Prefix(kind) + token)[|Prefix(kind)|..] == token;
    assert (Prefix(kind) + token)[0] == Prefix(kind)[0];
    if Prefix(kind) <= key {
      assert key == Prefix(kind) + key[|Prefix(kind)|..];
      assert key[0] == Prefix(kind)[0];
    }
  }

  /** The three prefixes of tokens; what has none of them, such as a refresh token's key, is cached. */
  lemma PrefixesAre(rest: string)
    ensures RouteOf("email_verify:" + rest) == Token(EmailVerify, rest)
    ensures RouteOf("password_reset:" + rest) == Token(PasswordReset, rest)
    ensures RouteOf("invite_token:" + rest) == Token(InviteToken, rest)
    ensures RouteOf("refresh_token:" + rest).Cache? && RouteOf("doc_request:" + rest).Cache?
  {
    RouteIsExact("email_verify:" + rest, EmailVerify, rest);
    RouteIsExact("password_reset:" + rest, PasswordReset, rest);
    RouteIsExact("invite_token:" + rest, InviteToken, rest);
    assert ("refresh_token:" + rest)[0] == 'r' && ("doc_request:" + rest)[0] == 'd';
  }

  /** Whatever is set without a time to live is kept for a day. */
  lemma DayByDefault(value: string, at: int, nx: bool)
    ensures forall ex | ex in {None, Some(0)} ::
      Step(Tables(map[], map[]), Event(at, Set("k", value, ex, nx))).0.cache
        == map["k" := CacheRow(value, at + 24 * 60 * 60)]
  {
    assert RouteOf("k") == Cache("k");
  }

  // ---- the response cache ----

  /** The key was set, effectively or not, and has not been deleted since. */
  ghost predicate SetSinceDelete(h: seq<Event>, key: string) {
    exists i: nat | i < |h| && h[i].op.Set? && h[i].op.key == key :: forall j | i < j < |h| :: h[j].op != Delete(key)
  }

  /** The i-th event is the last set of the key that took effect, and the key was not deleted since. */
  ghost predicate LastSet(h: seq<Event>, key: string, i: nat) {
    && i < |h| && h[i].op.Set? && h[i].op.key == key && (h[i].op.nx ==> !SetSinceDelete(h[..i], key))
    && forall j | i < j < |h| :: h[j].op.key == key ==> h[j].op.Set? && h[j].op.nx
  }

  lemma SetSinceDeleteStep(h: seq<Event>, key: string)
    requires h != []
    ensures var init, op := h[..|h| - 1], h[|h| - 1].op;
      SetSinceDelete(h, key) <==> (op.Set? && op.key == key) || (SetSinceDelete(init, key) && op != Delete(key))
  {
    var init, n := h[..|h| - 1], |h| - 1;
    if SetSinceDelete(init, key) && h[n].op != Delete(key) {
      var i: nat :| i < |init| && init[i].op.Set? && init[i].op.key == key
                    && forall j | i < j < |init| :: init[j].op != Delete(key);
      assert h[i] == init[i] && forall j | i < j < |init| :: h[j] == init[j];
    }
    if SetSinceDelete(h, key) && !(h[n].op.Set? && h[n].op.key == key) {
      var i: nat :| i < |h| && h[i].op.Set? && h[i].op.key == key && forall j | i < j < |h| :: h[j].op != Delete(key);
      assert init[i] == h[i] && forall j | i < j < |init| :: init[j] == h[j];
    }
  }

  /** The same, told from the last event and the history before it. */
  ghost predicate StillLastSet(init: seq<Event>, e: Event, key: string, i: nat) {
    if i == |init| then e.op.Set? && e.op.key == key && (e.op.nx ==> !SetSinceDelete(init, key))
    else LastSet(init, key, i) && (e.op.key == key ==> e.op.Set? && e.op.nx)
  }

  lemma LastSetStep(h: seq<Event>, key: string, i: nat)
    requires h != []
    ensures LastSet(h, key, i) <==> StillLastSet(h[..|h| - 1], h[|h| - 1], key, i)
  {
    var init := h[..|h| - 1];
    if i < |init| {
      assert init[..i] == h[..i];
      assert forall j | i <= j < |init| :: init[j] == h[j];
    }
  }

  /** One cache key after any history: whether it has a row, and which set wrote the row. */
  lemma {:induction false} CacheRowIsLastSet(h: seq<Event>, key: string)
    requires RouteOf(key).Cache?
    ensures key in Run(h).cache <==> SetSinceDelete(h, key)
    ensures key in Run(h).cache <==> exists i: nat :: LastSet(h, key, i)
    ensures forall i: nat | LastSet(h, key, i) ::
      key in Run(h).cache && Run(h).cache[key] == CacheRow(h[i].op.value, h[i].at + Ttl(h[i].op.ex))
    decreases |h|
  {
    if h != [] {
      var init := h[..|h| - 1];
      CacheRowIsLastSet(init, key);
      CacheRowStep(h, key, Run(init), Run(h));
    }
  }

  lemma CacheRowStep(h: seq<Event>, key: string, before: Tables, after: Tables)
    requires RouteOf(key).Cache? && h != [] && after == Step(before, h[|h| - 1]).0
    requires var init := h[..|h| - 1];
      && (key in before.cache <==> SetSinceDelete(init, key))
      && (key in before.cache <==> exists i: nat :: LastSet(init, key, i))
      && (forall i: nat | LastSet(init, key, i) ::
            key in before.cache && before.cache[key] == CacheRow(h[i].op.value, h[i].at + Ttl(h[i].op.ex)))
    ensures key in after.cache <==> exists i: nat :: LastSet(h, key, i)
    ensures key in after.cache <==> SetSinceDelete(h, key)
    ensures forall i: nat | LastSet(h, key, i) ::
      key in after.cache && after.cache[key] == CacheRow(h[i].op.value, h[i].at + Ttl(h[i].op.ex))
  {
    var init, n, op := h[..|h| - 1], |h| - 1, h[|h| - 1].op;
    SetSinceDeleteStep(h, key);
    forall i: nat
      ensures LastSet(h, key, i) <==> StillLastSet(init, h[n], key, i)
    {
      LastSetStep(h, key, i);
    }
    if key in after.cache {
      if op.Set? && op.key == key && !(op.nx && key in before.cache) {
        assert LastSet(h, key, n);
      } else {
        var i: nat :| LastSet(init, key, i);
        assert LastSet(h, key, i);
      }
    }
  }

  /** The last set of the key that took effect gave it the value, and its time has not passed. */
  ghost predicate CacheReads(h: seq<Event>, key: string, now: int, v: string) {
    exists i: nat :: LastSet(h, key, i) && h[i].op.value == v && now < h[i].at + Ttl(h[i].op.ex)
  }

  /**
   Main result: after any history over any keys, a cache key reads exactly as in a map with expiry:
   the value last set, if it was not deleted since and its time to live has not passed. A set with
   nx counts when there was no row, that is, when no set had come since the key's last delete.
   */
  lemma {:induction false} CacheRefinesTtlMap(h: seq<Event>, key: string, now: int, v: string)
    requires RouteOf(key).Cache?
    ensures Lookup(Run(h), key, now) == Some(v) <==> CacheReads(h, key, now, v)
  {
    CacheRowIsLastSet(h, key);
  }

  // ---- tokens ----

  predicate SetsToken(e: Event, token: string) {
    e.op.Set? && RouteOf(e.op.key).Token? && RouteOf(e.op.key).token == token
  }

  function KindOf(e: Event): Kind
    requires RouteOf(e.op.key).Token?
  {
    RouteOf(e.op.key).kind
  }

  /** The set that created the token's present row, if it has one. */
  function Creator(h: seq<Event>, token: string): (r: Option<nat>)
    ensures r.Some? ==> r.value < |h| && SetsToken(h[r.value], token)
  {
    if h == [] then None
    else
      var init, e := h[..|h| - 1], h[|h| - 1];
      var before := Creator(init, token);
      if SetsToken(e, token) then (if before.None? then Some(|init|) else before)
      else if before.Some? && e.op == Delete(Prefix(KindOf(h[before.value])) + token) then None
      else before
  }

  /** The call that fixed the token's present expiry: its creator, or a later set without nx. */
  ghost predicate FixesExpiry(h: seq<Event>, token: string, m: nat) {
    && Creator(h, token).Some? && Creator(h, token).value <= m < |h|
    && SetsToken(h[m], token) && (m == Creator(h, token).value || !h[m].op.nx)
    && forall j | m < j < |h| :: SetsToken(h[j], token) ==> h[j].op.nx
  }

  /**
   The creator is the set of the token that came when the token had no row and whose own kind of
   delete has not come since; no other event is.
   */
  lemma {:induction false} CreatorMeaning(h: seq<Event>, token: string, c: nat)
    ensures Creator(h, token) == Some(c)
       <==> && c < |h| && SetsToken(h[c], token) && Creator(h[..c], token) == None
            && forall j | c < j < |h| :: h[j].op != Delete(Prefix(KindOf(h[c])) + token)
    decreases |h|
  {
    if c < |h| {
      var init := h[..|h| - 1];
      if c < |init| {
        CreatorMeaning(init, token, c);
        assert init[..c] == h[..c];
        assert forall j | c <= j < |init| :: init[j] == h[j];
      } else {
        assert h[..c] == init;
      }
    }
  }

  lemma DeleteOfToken(e: Event, kind: Kind, token: string)
    ensures e.op == Delete(Prefix(kind) + token) <==> e.op.Delete? && RouteOf(e.op.key) == Token(kind, token)
  {
    RouteIsExact(e.op.key, kind, token);
  }

  ghost predicate RowAgrees(h: seq<Event>, token: string, rows: map<Digest, TokenRow>, m: nat)
    requires Creator(h, token).Some? ==> m < |h|
  {
    match Creator(h, token)
    case None => Sha256(token) !in rows
    case Some(c) =>
      && FixesExpiry(h, token, m) && h[m].op.Set? && Sha256(token) in rows
      && rows[Sha256(token)] == TokenRow(if h[c].op.value == "" then None else Some(h[c].op.value),
                                         KindOf(h[c]), h[m].at + Ttl(h[m].op.ex))
  }

  /** What one event does to the row of one token. */
  ghost predicate TokenEffect(before: map<Digest, TokenRow>, e: Event, token: string, after: map<Digest, TokenRow>) {
    var d := Sha256(token);
    if SetsToken(e, token) then
      && d in after
      && (d !in before ==>
            after[d] == NewTokenRow(e.op.value, KindOf(e), e.at + Ttl(e.op.ex)))
      && (d in before ==> after[d] == if e.op.nx then before[d] else before[d].(expires := e.at + Ttl(e.op.ex)))
    else if d in before && e.op.Delete? && RouteOf(e.op.key) == Token(before[d].kind, token) then
      d !in after
    else
      (d in after <==> d in before) && (d in after ==> after[d] == before[d])
  }

  lemma StepOnToken(t: Tables, e: Event, token: string)
    ensures TokenEffect(t.tokens, e, token, Step(t, e).0.tokens)
  {
  }

  lemma SetKeepsAgreement(
      h: seq<Event>, token: string, before: map<Digest, TokenRow>, m: nat, after: map<Digest, TokenRow>)
    returns (m': nat)
    requires h != [] && SetsToken(h[|h| - 1], token)
    requires Creator(h[..|h| - 1], token).Some? ==> m < |h| - 1
    requires RowAgrees(h[..|h| - 1], token, before, m) && TokenEffect(before, h[|h| - 1], token, after)
    ensures m' < |h| && RowAgrees(h, token, after, m')
  {
    var init, e := h[..|h| - 1], h[|h| - 1];
    m' := if Creator(init, token).None? || !e.op.nx then |init| else m;
    SetFixesExpiry(h, token, m, m');
  }

  lemma SetFixesExpiry(h: seq<Event>, token: string, m: nat, m': nat)
    requires h != [] && SetsToken(h[|h| - 1], token)
    requires Creator(h[..|h| - 1], token).Some? ==> FixesExpiry(h[..|h| - 1], token, m)
    requires m' == if Creator(h[..|h| - 1], token).None? || !h[|h| - 1].op.nx then |h| - 1 else m
    ensures FixesExpiry(h, token, m')
  {
    var init := h[..|h| - 1];
    assert forall j | 0 <= j < |init| :: init[j] == h[j];
  }

  lemma CreatorAfterOther(h: seq<Event>, token: string)
    requires h != [] && !SetsToken(h[|h| - 1], token)
    ensures var before, op := Creator(h[..|h| - 1], token), h[|h| - 1].op;
      Creator(h, token)
        == (if before.Some? && op.Delete? && RouteOf(op.key) == Token(KindOf(h[before.value]), token) then None
            else before)
  {
    var before := Creator(h[..|h| - 1], token);
    if before.Some? {
      DeleteOfToken(h[|h| - 1], KindOf(h[before.value]), token);
    }
  }

  lemma ExpiryStaysFixed(h: seq<Event>, token: string, m: nat)
    requires h != [] && !SetsToken(h[|h| - 1], token)
    requires Creator(h, token) == Creator(h[..|h| - 1], token) && FixesExpiry(h[..|h| - 1], token, m)
    ensures FixesExpiry(h, token, m)
  {
    var init := h[..|h| - 1];
    assert forall j | 0 <= j < |init| :: init[j] == h[j];
  }

  lemma OtherKeepsAgreement(
      h: seq<Event>, token: string, before: map<Digest, TokenRow>, m: nat, after: map<Digest, TokenRow>)
    requires h != [] && !SetsToken(h[|h| - 1], token)
    requires Creator(h[..|h| - 1], token).Some? ==> m < |h| - 1
    requires RowAgrees(h[..|h| - 1], token, before, m) && TokenEffect(before, h[|h| - 1], token, after)
    ensures RowAgrees(h, token, after, m)
  {
    CreatorAfterOther(h, token);
    if Creator(h, token).Some? {
      ExpiryStaysFixed(h, token, m);
    }
  }

  lemma {:induction false} TokenRowIsCreated(h: seq<Event>, token: string) returns (m: nat)
    ensures Creator(h, token).Some? ==> m < |h|
    ensures RowAgrees(h, token, Run(h).tokens, m)
    decreases |h|
  {
    m := 0;
    if h != [] {
      var init, e := h[..|h| - 1], h[|h| - 1];
      m := TokenRowIsCreated(init, token);
      StepOnToken(Run(init), e, token);
      if SetsToken(e, token) {
        m := SetKeepsAgreement(h, token, Run(init).tokens, m, Run(h).tokens);
      } else {
        OtherKeepsAgreement(h, token, Run(init).tokens, m, Run(h).tokens);
      }
    }
  }

  /** The set that created the token's row was of this kind and gave it the value, not expired since. */
  ghost predicate TokenReads(h: seq<Event>, kind: Kind, token: string, now: int, v: string) {
    && Creator(h, token).Some?
    && (var c := Creator(h, token).value; KindOf(h[c]) == kind && h[c].op.value == v && v != "")
    && exists m: nat :: FixesExpiry(h, token, m) && h[m].op.Set? && now < h[m].at + Ttl(h[m].op.ex)
  }

  /**
   Main result: after any history, a token key reads the value given by the set that created the
   token's row, under that set's prefix only, for as long as the latest effective set's expiry has
   not passed. Later sets under any prefix move the expiry and nothing else.
   */
  lemma TokenReadsItsCreator(h: seq<Event>, kind: Kind, token: string, now: int, v: string)
    ensures Lookup(Run(h), Prefix(kind) + token, now) == Some(v) <==> TokenReads(h, kind, token, now, v)
  {
    RouteIsExact(Prefix(kind) + token, kind, token);
    var m := TokenRowIsCreated(h, token);
    assert forall k: nat | FixesExpiry(h, token, k) :: Creator(h, token).Some? ==> k == m;
  }

  /** A delete under another prefix, or of another token, changes no token. */
  lemma ForeignDeleteHasNoEffect(h: seq<Event>, at: int, kind: Kind, token: string)
    requires Creator(h, token).Some? && KindOf(h[Creator(h, token).value]) != kind
    ensures Step(Run(h), Event(at, Delete(Prefix(kind) + token))).0 == Run(h)
  {
    RouteIsExact(Prefix(kind) + token, kind, token);
    var m := TokenRowIsCreated(h, token);
  }

  // ---- set if absent ----

  /** The key has a row that nobody can read under it. */
  predicate Blocked(t: Tables, key: string, now: int) {
    match RouteOf(key)
    case Token(kind, token) =>
      Sha256(token) in t.tokens
      && (var row := t.tokens[Sha256(token)]; row.kind != kind || row.expires <= now || row.user == None)
    case Cache(_) => key in t.cache && t.cache[key].expires <= now
  }

  /**
   Set-if-absent is meant to succeed just when nothing can be read. It does, exactly unless the key
   has an unreadable row: one that has expired, that belongs to another prefix with the same token,
   or that was set without a value.
   */
  lemma NxSucceedsWhenUnreadableIff(t: Tables, key: string, value: string, ex: Option<int>, now: int)
    ensures (Step(t, Event(now, Set(key, value, ex, true))).1 <==> Lookup(t, key, now) == None)
       <==> !Blocked(t, key, now)
  {
  }

  /** The key has no row, expired or not, told from the history alone. */
  ghost predicate Vacant(h: seq<Event>, key: string) {
    match RouteOf(key)
    case Token(_, token) => Creator(h, token) == None
    case Cache(_) => !SetSinceDelete(h, key)
  }

  /**
   Main result: after any history, set-if-absent succeeds exactly when, for a cache key, no set of it
   has come since its last delete, and for a token key, no row of the token, under whatever prefix,
   is waiting for its own kind of delete.
   */
  lemma {:induction false} NxSucceedsIff(h: seq<Event>, key: string, value: string, ex: Option<int>, now: int)
    ensures Step(Run(h), Event(now, Set(key, value, ex, true))).1 <==> Vacant(h, key)
  {
    match RouteOf(key)
    case Cache(_) => CacheRowIsLastSet(h, key);
    case Token(_, token) => var m := TokenRowIsCreated(h, token);
  }

  lemma NxBlockedByExpiredRow()
    ensures var h := [Event(0, Set("k", "old", Some(10), false))];
      && Lookup(Run(h), "k", 20) == None
      && !Step(Run(h), Event(20, Set("k", "new", Some(10), true))).1
  {
    var h := [Event(0, Set("k", "old", Some(10), false))];
    assert h[..0] == [];
    assert Run(h[..0]) == Tables(map[], map[]);
    assert RouteOf("k") == Cache("k");
  }

  /** A row of one kind makes the same token unreadable, and yet not settable, under another. */
  lemma NxBlockedByOtherKind(token: string, user: string, now: int)
    ensures var h := [Event(0, Set(Prefix(EmailVerify) + token, user, None, false))];
      var key := Prefix(PasswordReset) + token;
      && Lookup(Run(h), key, now) == None
      && !Step(Run(h), Event(now, Set(key, user, None, true))).1
  {
    var h := [Event(0, Set(Prefix(EmailVerify) + token, user, None, false))];
    RouteIsExact(Prefix(EmailVerify) + token, EmailVerify, token);
    RouteIsExact(Prefix(PasswordReset) + token, PasswordReset, token);
    assert h[..0] == [];
    assert Run(h[..0]) == Tables(map[], map[]);
  }

  // ---- the store itself ----

  lemma RunOneMore(h: seq<Event>, e: Event)
    ensures Run(h + [e]) == Step(Run(h), e).0
  {
    assert (h + [e])[..|h|] == h;
  }

  /** What a key reads, told from the history alone. */
  ghost predicate Reads(h: seq<Event>, key: string, now: int, v: string) {
    match RouteOf(key)
    case Token(kind, token) => TokenReads(h, kind, token, now, v)
    case Cache(_) => CacheReads(h, key, now, v)
  }

  /** Every set succeeds, but for one with nx on a key that has a row. */
  lemma StoredIff(h: seq<Event>, e: Event)
    requires e.op.Set?
    ensures Step(Run(h), e).1 <==> !e.op.nx || Vacant(h, e.op.key)
  {
    if e.op.nx { NxSucceedsIff(h, e.op.key, e.op.value, e.op.ex, e.at); }
  }

  lemma ReadsIff(h: seq<Event>, key: string, now: int, v: string)
    ensures Lookup(Run(h), key, now) == Some(v) <==> Reads(h, key, now, v)
  {
    match RouteOf(key)
    case Token(kind, token) =>
      RouteIsExact(key, kind, token);
      TokenReadsItsCreator(h, kind, token, now, v);
    case Cache(_) =>
      CacheRefinesTtlMap(h, key, now, v);
  }

  class PostgresStore {
    var tokens: map<Digest, TokenRow>
    var cache: map<string, CacheRow>
    ghost var history: seq<Event>

    ghost function View(): Tables
      reads this
    {
      Tables(tokens, cache)
    }

    /** The tables are what the calls so far have made of them. */
    ghost predicate Valid()
      reads this
    {
      View() == Run(history)
    }

    constructor ()
      ensures Valid() && history == []
    {
      tokens, cache, history := map[], map[], [];
    }

    method SetKey(key: string, value: string, ex: Option<int>, nx: bool, now: int) returns (stored: bool)
      requires Valid()
      modifies this
      ensures Valid() && history == old(history) + [Event(now, Set(key, value, ex, nx))]
      ensures stored <==> !nx || Vacant(old(history), key)
    {
      ghost var e := Event(now, Set(key, value, ex, nx));
      StoredIff(history, e);
      RunOneMore(history, e);
      stored := WriteKey(key, value, ex, nx, now);
      history := history + [e];
    }

    /** The statement itself, on whichever table the key is routed to. */
    method WriteKey(key: string, value: string, ex: Option<int>, nx: bool, now: int) returns (stored: bool)
      modifies this`tokens, this`cache
      ensures (View(), stored) == Step(old(View()), Event(now, Set(key, value, ex, nx)))
    {
      var ttl := if ex == None || ex.value == 0 then DEFAULT_TTL else ex.value;
      match RouteOf(key) {
        case Token(kind, token) =>
          var hash := Sha256(token);
          var row := TokenRow(if value == "" then None else Some(value), kind, now + ttl);
          if hash !in tokens {
            tokens := tokens[hash := row];
          } else if nx {
            return false;
          } else {
            tokens := tokens[hash := tokens[hash].(expires := row.expires)];
          }
          return true;
        case Cache(_) =>
          if nx && key in cache {
            return false;
          }
          cache := cache[key := CacheRow(value, now + ttl)];
          return true;
      }
    }

    method GetKey(key: string, now: int) returns (value: Option<string>)
      requires Valid()
      ensures value == Lookup(View(), key, now)
      ensures forall v :: value == Some(v) <==> Reads(history, key, now, v)
    {
      forall v ensures Lookup(View(), key, now) == Some(v) <==> Reads(history, key, now, v) {
        ReadsIff(history, key, now, v);
      }
      match RouteOf(key) {
        case Token(kind, token) =>
          var hash := Sha256(token);
          if hash in tokens && tokens[hash].kind == kind && tokens[hash].expires > now {
            return tokens[hash].user;
          }
          return None;
        case Cache(_) =>
          if key in cache && cache[key].expires > now {
            return Some(cache[key].data);
          }
          return None;
      }
    }

    method DeleteKey(key: string, ghost now: int)
      requires Valid()
      modifies this
      ensures Valid() && history == old(history) + [Event(now, Delete(key))]
    {
      RunOneMore(history, Event(now, Delete(key)));
      DeleteRow(key);
      history := history + [Event(now, Delete(key))];
    }

    method DeleteRow(key: string)
      modifies this`tokens, this`cache
      ensures forall now :: View() == Step(old(View()), Event(now, Delete(key))).0
    {
      match RouteOf(key) {
        case Token(kind, token) =>
          var hash := Sha256(token);
          if hash in tokens && tokens[hash].kind == kind {
            tokens := tokens - {hash};
          }
        case Cache(_) =>
          cache := cache - {key};
      }
    }
  }
}
