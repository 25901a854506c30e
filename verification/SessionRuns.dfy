/** What holds along every run of setup, login, logout, purge and token handling. */
module SessionRuns {
  import opened Results
  import opened TimeText
  import opened Sessions

  function After(s: State, ops: seq<Op>): State {
    if ops == [] then s else Next(After(s, ops[..|ops| - 1]), ops[|ops| - 1])
  }

  predicate AllEnabled(s: State, ops: seq<Op>) {
    ops == [] || (AllEnabled(s, ops[..|ops| - 1]) && Enabled(After(s, ops[..|ops| - 1]), ops[|ops| - 1]))
  }

  lemma {:induction false} RunKeepsInv(ops: seq<Op>)
    requires AllEnabled(EMPTY, ops)
    ensures Inv(After(EMPTY, ops))
  {
    if ops != [] {
      RunKeepsInv(ops[..|ops| - 1]);
      StepKeepsInv(After(EMPTY, ops[..|ops| - 1]), ops[|ops| - 1]);
    }
  }

  /**
    After any run, a session is valid exactly when it was opened, not logged out, and not yet expired,
    outside the second of its expiry, for a clock that is not behind an earlier purge.
   */
  lemma SessionsRefine(ops: seq<Op>, hash: string, now: Instant)
    requires AllEnabled(EMPTY, ops) && SettledFor(After(EMPTY, ops), hash, now)
    ensures SessionValid(After(EMPTY, ops).tables, hash, now) <==> IsLive(After(EMPTY, ops), hash, now)
  {
    RunKeepsInv(ops);
    ValidIsLive(After(EMPTY, ops), hash, now);
  }

  /** After any run, a token is found exactly when it was issued, not revoked and has not expired. */
  lemma TokensRefine(ops: seq<Op>, hash: string, now: Instant)
    requires AllEnabled(EMPTY, ops) && TokensSettledFor(After(EMPTY, ops), hash, now)
    ensures TokenFound(After(EMPTY, ops).tables, hash, now) <==> Granted(After(EMPTY, ops), hash, now)
  {
    RunKeepsInv(ops);
    FoundIsGranted(After(EMPTY, ops), hash, now);
  }

  lemma SessionsMatch(ops: seq<Op>)
    requires AllEnabled(EMPTY, ops)
    ensures SessionsOk(After(EMPTY, ops))
  {
    RunKeepsInv(ops);
  }

  lemma TokensMatch(ops: seq<Op>)
    requires AllEnabled(EMPTY, ops)
    ensures After(EMPTY, ops).tables.tokens.Keys == After(EMPTY, ops).grants.Keys
  {
    RunKeepsInv(ops);
  }

  lemma AnswerAt(s: State, hash: string, now: Instant)
    requires Inv(s) && now.Valid() && hash in s.tables.sessions
    ensures (SessionValid(s.tables, hash, now) <==> IsLive(s, hash, now)) <==> !TextMisleads(now, s.live[hash].at)
  {
    ExpiryJudgement(s.live[hash].at, now);
  }

  /** While the row is there, the answer is right exactly when the two texts do not mislead. */
  lemma SessionAnswer(ops: seq<Op>, hash: string, now: Instant)
    requires AllEnabled(EMPTY, ops) && now.Valid() && hash in After(EMPTY, ops).tables.sessions
    ensures hash in After(EMPTY, ops).live
    ensures var s := After(EMPTY, ops);
      (SessionValid(s.tables, hash, now) <==> IsLive(s, hash, now)) <==> !TextMisleads(now, s.live[hash].at)
  {
    RunKeepsInv(ops);
    AnswerAt(After(EMPTY, ops), hash, now);
  }

  lemma PurgeAnswer(s: State, purge: Instant, hash: string, now: Instant)
    requires Inv(s) && purge.Valid() && now.Valid() && purge.sec <= now.sec && hash in s.tables.sessions
    requires s.live[hash].at.sec != now.sec && now.Before(s.live[hash].at)
    ensures ExpiresAfter(s.tables.sessions[hash], purge)
  {
    ExpiryJudgement(s.live[hash].at, purge);
  }

  /** A purge changes no later answer outside the second of expiry. */
  lemma PurgeIsInvisible(ops: seq<Op>, purge: Instant, hash: string, now: Instant)
    requires AllEnabled(EMPTY, ops) && purge.Valid() && now.Valid() && purge.sec <= now.sec
    requires var s := After(EMPTY, ops); hash in s.live ==> s.live[hash].at.sec != now.sec
    ensures var s := After(EMPTY, ops);
      SessionValid(Next(s, Purge(Written(purge))).tables, hash, now) <==> SessionValid(s.tables, hash, now)
  {
    RunKeepsInv(ops);
    var s := After(EMPTY, ops);
    if hash in s.tables.sessions && ExpiresAfter(s.tables.sessions[hash], now) {
      AnswerAt(s, hash, now);
      ExpiryJudgement(s.live[hash].at, now);
      PurgeAnswer(s, purge, hash, now);
    }
  }

  lemma {:induction false} FreshAt(ops: seq<Op>, i: nat)
    requires AllEnabled(EMPTY, ops) && i < |ops|
    ensures Fresh(After(EMPTY, ops[..i]), ops[i])
  {
    var front := ops[..|ops| - 1];
    if i < |front| {
      FreshAt(front, i);
      assert front[..i] == ops[..i] && front[i] == ops[i];
    }
  }

  lemma StepKeepsOut(s: State, op: Op, hash: string)
    requires Fresh(s, op) && hash in s.issued && hash !in s.live
    ensures hash in Next(s, op).issued && hash !in Next(s, op).live
  {
  }

  /** A token that was logged out is accepted at no time by any continuation. */
  lemma {:induction false} LogoutIsFinal(ops: seq<Op>, i: nat, hash: string, now: Instant)
    requires AllEnabled(EMPTY, ops) && i <= |ops|
    requires hash in After(EMPTY, ops[..i]).issued && hash !in After(EMPTY, ops[..i]).live
    ensures !SessionValid(After(EMPTY, ops).tables, hash, now)
    decreases |ops| - i
  {
    if i == |ops| {
      assert ops[..i] == ops;
      RunKeepsInv(ops);
    } else {
      FreshAt(ops, i);
      assert ops[..i + 1][..i] == ops[..i];
      StepKeepsOut(After(EMPTY, ops[..i]), ops[i], hash);
      LogoutIsFinal(ops, i + 1, hash, now);
    }
  }

  /** Whatever other sessions and tokens do, a session stays as it was opened until it is logged out. */
  lemma StepKeepsSession(s: State, op: Op, hash: string)
    requires Fresh(s, op) && hash in s.issued && hash in s.live && op != Logout(hash)
    ensures hash in Next(s, op).issued && hash in Next(s, op).live && Next(s, op).live[hash] == s.live[hash]
  {
  }

  lemma {:induction false} SessionStays(ops: seq<Op>, i: nat, hash: string)
    requires AllEnabled(EMPTY, ops) && i <= |ops| && forall k :: i <= k < |ops| ==> ops[k] != Logout(hash)
    requires hash in After(EMPTY, ops[..i]).issued && hash in After(EMPTY, ops[..i]).live
    ensures hash in After(EMPTY, ops).live && After(EMPTY, ops).live[hash] == After(EMPTY, ops[..i]).live[hash]
    decreases |ops| - i
  {
    if i == |ops| {
      assert ops[..i] == ops;
    } else {
      FreshAt(ops, i);
      assert ops[..i + 1][..i] == ops[..i];
      StepKeepsSession(After(EMPTY, ops[..i]), ops[i], hash);
      SessionStays(ops, i + 1, hash);
    }
  }

  lemma {:induction false} PrefixEnabled(ops: seq<Op>, i: nat)
    requires AllEnabled(EMPTY, ops) && i <= |ops|
    ensures AllEnabled(EMPTY, ops[..i])
    decreases |ops|
  {
    if i == |ops| {
      assert ops[..i] == ops;
    } else {
      PrefixEnabled(ops[..|ops| - 1], i);
      assert ops[..|ops| - 1][..i] == ops[..i];
    }
  }

  predicate Opens(op: Op, hash: string, expires: Stamp) {
    (op.Setup? || op.Save?) && op.hash == hash && op.expires == expires
  }

  lemma FreshIsOpened(s: State, op: Op, hash: string, expires: Stamp)
    requires SessionsOk(s) && hash !in s.issued && Opens(op, hash, expires) && (op.Setup? ==> s.tables.user.None?)
    ensures var t := Next(s, op); hash in t.issued && hash in t.live && t.live[hash] == expires
  {
  }

  lemma AfterSnoc(ops: seq<Op>, i: nat)
    requires i < |ops|
    ensures After(EMPTY, ops[..i + 1]) == Next(After(EMPTY, ops[..i]), ops[i])
  {
    assert ops[..i + 1][..i] == ops[..i];
  }

  lemma OpenedAt(ops: seq<Op>, i: nat, hash: string, expires: Stamp)
    requires AllEnabled(EMPTY, ops) && i < |ops| && Opens(ops[i], hash, expires)
    requires ops[i].Setup? ==> After(EMPTY, ops[..i]).tables.user.None?
    ensures var t := Next(After(EMPTY, ops[..i]), ops[i]); hash in t.issued && hash in t.live && t.live[hash] == expires
  {
    FreshAt(ops, i);
    PrefixEnabled(ops, i);
    SessionsMatch(ops[..i]);
    FreshIsOpened(After(EMPTY, ops[..i]), ops[i], hash, expires);
  }

  /** A session that was opened and not itself logged out is live with the expiry that it was opened with. */
  lemma OpenedIsLive(ops: seq<Op>, i: nat, hash: string, expires: Stamp)
    requires AllEnabled(EMPTY, ops) && i < |ops| && Opens(ops[i], hash, expires)
    requires ops[i].Setup? ==> After(EMPTY, ops[..i]).tables.user.None?
    requires forall k :: i < k < |ops| ==> ops[k] != Logout(hash)
    ensures hash in After(EMPTY, ops).live && After(EMPTY, ops).live[hash] == expires
  {
    OpenedAt(ops, i, hash, expires);
    AfterSnoc(ops, i);
    SessionStays(ops, i + 1, hash);
  }

  lemma StepOpens(s: State, op: Op, hash: string)
    requires hash in Next(s, op).live
    ensures Opens(op, hash, Next(s, op).live[hash]) || (hash in s.live && s.live[hash] == Next(s, op).live[hash])
  {
  }

  /** And a live session was opened with that expiry by some step of the run. */
  lemma {:induction false} LiveWasOpened(ops: seq<Op>, hash: string) returns (i: nat)
    requires hash in After(EMPTY, ops).live
    ensures i < |ops| && Opens(ops[i], hash, After(EMPTY, ops).live[hash])
  {
    var front := ops[..|ops| - 1];
    StepOpens(After(EMPTY, front), ops[|ops| - 1], hash);
    if Opens(ops[|ops| - 1], hash, After(EMPTY, ops).live[hash]) {
      i := |ops| - 1;
    } else {
      i := LiveWasOpened(front, hash);
    }
  }

  /** The same token, whatever its latest use. */
  predicate SameGrant(g: Grant, h: Grant) { g.(lastUsed := None) == h.(lastUsed := None) }

  lemma StepKeepsGrant(s: State, op: Op, id: string)
    requires s.tables.tokens.Keys == s.grants.Keys && id in s.grants && op != Revoke(id)
    ensures id in Next(s, op).grants && SameGrant(Next(s, op).grants[id], s.grants[id])
  {
  }

  /** A token stays what it was issued for until it is revoked itself. */
  lemma {:induction false} GrantStays(ops: seq<Op>, i: nat, id: string)
    requires AllEnabled(EMPTY, ops) && i <= |ops| && forall k :: i <= k < |ops| ==> ops[k] != Revoke(id)
    requires id in After(EMPTY, ops[..i]).grants
    ensures id in After(EMPTY, ops).grants && SameGrant(After(EMPTY, ops).grants[id], After(EMPTY, ops[..i]).grants[id])
    decreases |ops| - i
  {
    if i == |ops| {
      assert ops[..i] == ops;
    } else {
      PrefixEnabled(ops, i);
      TokensMatch(ops[..i]);
      assert ops[..i + 1][..i] == ops[..i];
      StepKeepsGrant(After(EMPTY, ops[..i]), ops[i], id);
      GrantStays(ops, i + 1, id);
    }
  }

  lemma StepKeepsAdministrator(s: State, op: Op)
    requires s.tables.user.Some?
    ensures Next(s, op).tables.user == s.tables.user
  {
  }

  /** Setup is permanently disabled: once there is an administrator, no run replaces it. */
  lemma {:induction false} AdministratorIsFinal(ops: seq<Op>, i: nat)
    requires i <= |ops| && After(EMPTY, ops[..i]).tables.user.Some?
    ensures After(EMPTY, ops).tables.user == After(EMPTY, ops[..i]).tables.user
    decreases |ops| - i
  {
    if i == |ops| {
      assert ops[..i] == ops;
    } else {
      assert ops[..i + 1][..i] == ops[..i];
      StepKeepsAdministrator(After(EMPTY, ops[..i]), ops[i]);
      AdministratorIsFinal(ops, i + 1);
    }
  }
}
