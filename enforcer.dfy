/** The enforcement side: the `setquota` calls the engine issues to
    reconcile the Domain Users cap, to cap users under pressure and to
    clear quotas, each pass computed from one snapshot of the reports. */
module Enforcer {
  import opened Base
  import opened Text
  import opened Repquota
  import opened Capacity
  import opened Accounts
  import opened Sizes

  /** `grace_mebibyte = 5 * 1024`: the room, in blocks, left above a user's usage. */
  const Grace := 5 * 1024

  /** One `setquota` call: soft and hard block limits both `value`, inode limits cleared. */
  datatype Command = SetQuota(kind: Kind, target: string, value: int)

  function KindOption(kind: Kind): string
  {
    if kind == User then "-u" else "-g"
  }

  /** The argument vector `apply_quota` hands to `execute`, on the root filesystem. */
  function Argv(c: Command): (argv: seq<string>)
    ensures |argv| == 8 && argv[0] == "/usr/sbin/setquota" && argv[2] == c.target
    ensures argv[3] == argv[4] && argv[5..] == ["0", "0", "/"]
  {
    ["/usr/sbin/setquota", KindOption(c.kind), c.target,
     IntToString(c.value), IntToString(c.value), "0", "0", "/"]
  }

  /** Distinct commands are distinct argument vectors. */
  lemma ArgvInjective(c: Command, d: Command)
    requires Argv(c) == Argv(d)
    ensures c == d
  {
    assert KindOption(c.kind) == Argv(c)[1] == Argv(d)[1] == KindOption(d.kind);
    IntToStringInjective(c.value, d.value);
  }

  /** The quota value handed to `apply_quota`: a number, or anything else. */
  datatype Value = Number(n: int) | NotNumber

  /** `apply_quota` once the kind and the report are known. */
  function Apply(kind: Kind, target: string, value: Value, report: Report): (r: Result<Command>)
    ensures r.Ok? <==> target in report.records && value.Number?
    ensures r.Ok? ==> r.value == SetQuota(kind, target, value.n)
    ensures target !in report.records ==> r == Err(InvalidTarget)
  {
    if target !in report.records then Err(InvalidTarget)
    else if value.NotNumber? then Err(InvalidValue)
    else Ok(SetQuota(kind, target, value.n))
  }

  /** `apply_quota(target, value, t)`, `out` being the report of kind `t`:
      the kind is checked, then that the target is reported, then that
      the value is a number. */
  function ApplyQuota(target: string, value: Value, t: string, out: string): (r: Result<Command>)
    ensures t != "u" && t != "g" ==> r == Err(TypeError)
    ensures ReportOf(t, out).Err? ==> r == Err(ReportOf(t, out).error)
    ensures r.Ok? <==> ReportOf(t, out).Ok? && target in ReportOf(t, out).value.records && value.Number?
    ensures r.Ok? ==> Argv(r.value)
                      == ["/usr/sbin/setquota", "-" + t, target, IntToString(value.n), IntToString(value.n), "0", "0", "/"]
  {
    var kind :- KindOf(t);
    assert KindOption(kind) == "-" + t;
    var report :- ReportOf(t, out);
    Apply(kind, target, value, report)
  }

  /** What a pass issued, in order, and the error that ended it early, if any:
      commands issued before an error have already gone out. */
  datatype Outcome = Outcome(issued: seq<Command>, failure: Option<Error>)

  /** Run `first`, then `second` unless `first` failed. */
  function Then(first: Outcome, second: Outcome): Outcome
  {
    if first.failure.Some? then first else Outcome(first.issued + second.issued, second.failure)
  }

  // ---------------------------------------------------------------------
  // The modelled effect of the commands on a later read of the report.

  /** The records once `cmds` have taken effect, on the assumption that
      `setquota` sets the limit of an entry of its kind and that usage
      and the over-limit flags do not move meanwhile. */
  function LimitsAfter(records: map<string, QuotaRecord>, kind: Kind, cmds: seq<Command>)
    : (r: map<string, QuotaRecord>)
    ensures r.Keys == records.Keys
    ensures forall n :: n in r ==> r[n].used == records[n].used && r[n].status == records[n].status
    decreases |cmds|
  {
    if |cmds| == 0 then records
    else
      var r := LimitsAfter(records, kind, cmds[..|cmds| - 1]);
      var c := cmds[|cmds| - 1];
      if c.kind == kind && c.target in r then r[c.target := r[c.target].(limit := c.value)] else r
  }

  /** The report a fresh read shows once `cmds` have taken effect. */
  function AfterCommands(report: Report, kind: Kind, cmds: seq<Command>): (r: Report)
    requires report.Valid()
    ensures r.Valid() && r.names == report.names && r.records.Keys == report.records.Keys
    ensures forall n :: n in r.records ==>
              r.records[n].used == report.records[n].used && r.records[n].status == report.records[n].status
  {
    Report(report.names, LimitsAfter(report.records, kind, cmds))
  }

  predicate Targets(cmds: seq<Command>, kind: Kind, n: string)
  {
    exists i :: 0 <= i < |cmds| && cmds[i].kind == kind && cmds[i].target == n
  }

  /** When every command on `n` sets the same value, that is `n`'s new
      limit; with no command on `n` its limit is untouched. */
  lemma {:induction false} AfterAgreed(records: map<string, QuotaRecord>, kind: Kind, cmds: seq<Command>, n: string, v: int)
    requires n in records
    requires forall i :: 0 <= i < |cmds| && cmds[i].kind == kind && cmds[i].target == n ==> cmds[i].value == v
    ensures LimitsAfter(records, kind, cmds)[n].limit == if Targets(cmds, kind, n) then v else records[n].limit
    decreases |cmds|
  {
    if |cmds| > 0 {
      var init := cmds[..|cmds| - 1];
      var last := cmds[|cmds| - 1];
      AfterAgreed(records, kind, init, n, v);
      assert Targets(cmds, kind, n) <==> Targets(init, kind, n) || (last.kind == kind && last.target == n) by {
        if Targets(cmds, kind, n) && !(last.kind == kind && last.target == n) {
          var i :| 0 <= i < |cmds| && cmds[i].kind == kind && cmds[i].target == n;
          assert init[i] == cmds[i];
        }
        if Targets(init, kind, n) {
          var i :| 0 <= i < |init| && init[i].kind == kind && init[i].target == n;
          assert cmds[i] == init[i];
        }
      }
    }
  }

  /** When every command of `kind` on `n` sets `v`, and there is one
      whenever `n`'s limit is not `v` already, the limit ends at `v`. */
  lemma Settled(report: Report, kind: Kind, cmds: seq<Command>, n: string, v: int)
    requires report.Valid() && n in report.records
    requires forall c :: c in cmds && c.kind == kind && c.target == n ==> c.value == v
    requires report.records[n].limit != v ==> SetQuota(kind, n, v) in cmds
    ensures AfterCommands(report, kind, cmds).records[n].limit == v
  {
    forall i | 0 <= i < |cmds| && cmds[i].kind == kind && cmds[i].target == n
      ensures cmds[i].value == v
    {
      assert cmds[i] in cmds;
    }
    AfterAgreed(report.records, kind, cmds, n, v);
    if report.records[n].limit != v {
      var i :| 0 <= i < |cmds| && cmds[i] == SetQuota(kind, n, v);
      assert Targets(cmds, kind, n);
    }
  }

  /** With no command of `kind` on `n`, `n`'s record is untouched. */
  lemma Untouched(report: Report, kind: Kind, cmds: seq<Command>, n: string)
    requires report.Valid() && n in report.records
    requires forall c :: c in cmds ==> c.kind != kind || c.target != n
    ensures AfterCommands(report, kind, cmds).records[n] == report.records[n]
  {
    assert !Targets(cmds, kind, n) by {
      forall i | 0 <= i < |cmds|
        ensures !(cmds[i].kind == kind && cmds[i].target == n)
      {
        assert cmds[i] in cmds;
      }
    }
    AfterAgreed(report.records, kind, cmds, n, 0);
  }

  // ---------------------------------------------------------------------
  // apply_calculated_quota_group

  /** `apply_calculated_quota_group` once the group report is read: the
      Domain Users limit is looked up first (missing is an error), then
      the sizes are computed, and the cap is set to `quota_domains`
      unless it already is. */
  function ReconcileGroup(groups: Report, sizes: Result<DerivedSizes>): (r: Result<seq<Command>>)
    ensures DomainUsersGroup !in groups.records ==> r == Err(MissingEntry)
    ensures DomainUsersGroup in groups.records && sizes.Err? ==> r == Err(sizes.error)
    ensures r.Ok? <==> DomainUsersGroup in groups.records && sizes.Ok?
    ensures r.Ok? ==> |r.value| <= 1
    ensures r.Ok? ==> (r.value != [] <==> groups.records[DomainUsersGroup].limit != sizes.value.quotaDomains)
    ensures r.Ok? ==> forall c :: c in r.value ==> c == SetQuota(Group, DomainUsersGroup, sizes.value.quotaDomains)
  {
    if DomainUsersGroup !in groups.records then Err(MissingEntry)
    else
      var current := groups.records[DomainUsersGroup].limit;
      var s :- sizes;
      if current == s.quotaDomains then Ok([])
      else
        Ok([SetQuota(Group, DomainUsersGroup, s.quotaDomains)])
  }

  /** `apply_calculated_quota_group()` on the report and `df` texts: the
      group report is read first, then the sizes (which read both reports
      and the capacity again). */
  function ApplyCalculatedQuotaGroup(userOut: string, groupOut: string, dfOut: string): (r: Result<seq<Command>>)
    ensures ReportOf("g", groupOut).Err? ==> r == Err(ReportOf("g", groupOut).error)
    ensures ReportOf("g", groupOut).Ok? ==>
              r == ReconcileGroup(ReportOf("g", groupOut).value, SizesOf(userOut, groupOut, dfOut))
    ensures r.Ok? <==> ReportOf("g", groupOut).Ok? && DomainUsersGroup in ReportOf("g", groupOut).value.records
                       && SizesOf(userOut, groupOut, dfOut).Ok?
    ensures r.Ok? ==>
              && |r.value| <= 1
              && (r.value == [] <==> ReportOf("g", groupOut).value.records[DomainUsersGroup].limit
                                     == SizesOf(userOut, groupOut, dfOut).value.quotaDomains)
              && forall c :: c in r.value ==>
                   c == SetQuota(Group, DomainUsersGroup, SizesOf(userOut, groupOut, dfOut).value.quotaDomains)
  {
    var groups :- ReportOf("g", groupOut);
    ReconcileGroup(groups, SizesOf(userOut, groupOut, dfOut))
  }

  /** Once its command has taken effect, the next pass over the same
      usage issues nothing: the cap depends on usage only. */
  lemma GroupSettles(groups: Report, df: Usage, cmds: seq<Command>)
    requires groups.Valid()
    requires ReconcileGroup(groups, CalculateSizes(groups, df)) == Ok(cmds)
    ensures var after := AfterCommands(groups, Group, cmds);
            && after.records[DomainUsersGroup].limit == CalculateSizes(groups, df).value.quotaDomains
            && ReconcileGroup(after, CalculateSizes(after, df)) == Ok([])
  {
    var after := AfterCommands(groups, Group, cmds);
    Settled(groups, Group, cmds, DomainUsersGroup, CalculateSizes(groups, df).value.quotaDomains);
    SizesIgnoreLimits(groups, after, df);
  }

  // ---------------------------------------------------------------------
  // apply_calculated_quota_users

  /** `[us for us in accounts if us not in excluded]`. */
  function Without(accounts: seq<string>, excluded: seq<string>): (r: seq<string>)
    ensures forall a :: a in r <==> a in accounts && a !in excluded
    ensures |r| <= |accounts| && Subsequence(r, accounts)
  {
    if |accounts| == 0 then []
    else
      var rest := Without(accounts[1..], excluded);
      assert accounts == [accounts[0]] + accounts[1..];
      if accounts[0] in excluded then
        SubsequenceSkip(rest, accounts[0], accounts[1..]);
        rest
      else
        assert ([accounts[0]] + rest)[1..] == rest;
        [accounts[0]] + rest
  }

  /** One loop of `apply_calculated_quota_users`: each account's limit is
      set to its usage plus `extra` unless it already is; an account the
      user report lacks ends the pass there. */
  function SetToUsage(accounts: seq<string>, report: Report, extra: int): (o: Outcome)
    ensures |o.issued| <= |accounts|
  {
    if |accounts| == 0 then Outcome([], None)
    else if accounts[0] !in report.records then Outcome([], Some(MissingEntry))
    else
      var rec := report.records[accounts[0]];
      var rest := SetToUsage(accounts[1..], report, extra);
      if rec.limit != rec.used + extra then
        Outcome([SetQuota(User, accounts[0], rec.used + extra)] + rest.issued, rest.failure)
      else rest
  }

  /** The loop fails exactly when some account is not in the report, and
      then on the missing entry. */
  lemma {:induction false} SetToUsageFailure(accounts: seq<string>, report: Report, extra: int)
    ensures var o := SetToUsage(accounts, report, extra);
            && (o.failure.None? <==> forall i :: 0 <= i < |accounts| ==> accounts[i] in report.records)
            && (o.failure.Some? ==> o.failure == Some(MissingEntry))
  {
    if |accounts| > 0 && accounts[0] in report.records {
      SetToUsageFailure(accounts[1..], report, extra);
      assert forall i :: 1 <= i < |accounts| ==> accounts[i] == accounts[1..][i - 1];
    }
  }

  /** Every command sets a listed, reported account whose limit differs
      from its usage plus `extra` to exactly that. */
  lemma {:induction false} SetToUsageIssued(accounts: seq<string>, report: Report, extra: int)
    ensures forall c :: c in SetToUsage(accounts, report, extra).issued ==>
              && c.kind == User && c.target in accounts && c.target in report.records
              && c.value == report.records[c.target].used + extra
              && report.records[c.target].limit != c.value
  {
    if |accounts| > 0 && accounts[0] in report.records {
      SetToUsageIssued(accounts[1..], report, extra);
      assert forall a :: a in accounts[1..] ==> a in accounts;
    }
  }

  /** When the loop runs through, every listed account whose limit differs
      from its usage plus `extra` gets its command. */
  lemma {:induction false} SetToUsageComplete(accounts: seq<string>, report: Report, extra: int)
    requires forall i :: 0 <= i < |accounts| ==> accounts[i] in report.records
    ensures forall a :: a in accounts && report.records[a].limit != report.records[a].used + extra
              ==> SetQuota(User, a, report.records[a].used + extra) in SetToUsage(accounts, report, extra).issued
  {
    if |accounts| > 0 {
      SetToUsageComplete(accounts[1..], report, extra);
      assert forall a :: a in accounts ==> a == accounts[0] || a in accounts[1..];
    }
  }

  /** When every listed account already has the limit it would get, the
      loop issues nothing. */
  lemma {:induction false} SetToUsageSettled(accounts: seq<string>, report: Report, extra: int)
    requires forall a :: a in accounts ==>
               a in report.records && report.records[a].limit == report.records[a].used + extra
    ensures SetToUsage(accounts, report, extra) == Outcome([], None)
  {
    if |accounts| > 0 {
      assert accounts[0] in accounts;
      assert forall a :: a in accounts[1..] ==> a in accounts;
      SetToUsageSettled(accounts[1..], report, extra);
    }
  }

  /** The commands issued before the pass stops at the first account the
      report lacks are those for the accounts before it. */
  lemma {:induction false} SetToUsageStops(accounts: seq<string>, report: Report, extra: int, k: nat)
    requires k < |accounts| && accounts[k] !in report.records
    requires forall j :: 0 <= j < k ==> accounts[j] in report.records
    ensures SetToUsage(accounts, report, extra)
            == Outcome(SetToUsage(accounts[..k], report, extra).issued, Some(MissingEntry))
  {
    if k > 0 {
      SetToUsageStops(accounts[1..], report, extra, k - 1);
      assert accounts[1..][..k - 1] == accounts[..k][1..];
    }
  }

  /** The loop's invariant: the commands issued so far, followed by what
      the accounts from `i` on give, are what the whole list gives. */
  ghost predicate Pending(accounts: seq<string>, report: Report, extra: int, i: nat, issued: seq<Command>)
    requires i <= |accounts|
  {
    var rest := SetToUsage(accounts[i..], report, extra);
    SetToUsage(accounts, report, extra) == Outcome(issued + rest.issued, rest.failure)
  }

  lemma PendingStart(accounts: seq<string>, report: Report, extra: int)
    ensures Pending(accounts, report, extra, 0, [])
  {
    assert accounts[0..] == accounts;
  }

  lemma PendingStep(accounts: seq<string>, report: Report, extra: int, i: nat, issued: seq<Command>, next: seq<Command>)
    requires i < |accounts| && accounts[i] in report.records
    requires Pending(accounts, report, extra, i, issued)
    requires var rec := report.records[accounts[i]];
             next == if rec.limit != rec.used + extra then issued + [SetQuota(User, accounts[i], rec.used + extra)] else issued
    ensures Pending(accounts, report, extra, i + 1, next)
  {
    assert accounts[i..][1..] == accounts[i + 1..];
    var rec := report.records[accounts[i]];
    if rec.limit != rec.used + extra {
      var c := SetQuota(User, accounts[i], rec.used + extra);
      var rest := SetToUsage(accounts[i + 1..], report, extra).issued;
      assert issued + ([c] + rest) == (issued + [c]) + rest;
    }
  }

  lemma PendingMissing(accounts: seq<string>, report: Report, extra: int, i: nat, issued: seq<Command>)
    requires i < |accounts| && accounts[i] !in report.records
    requires Pending(accounts, report, extra, i, issued)
    ensures SetToUsage(accounts, report, extra) == Outcome(issued, Some(MissingEntry))
  {
    assert accounts[i..][0] == accounts[i];
  }

  lemma PendingDone(accounts: seq<string>, report: Report, extra: int, issued: seq<Command>)
    requires Pending(accounts, report, extra, |accounts|, issued)
    ensures SetToUsage(accounts, report, extra) == Outcome(issued, None)
  {
    assert accounts[|accounts|..] == [];
  }

  /** The loop itself, issuing as it goes. */
  method SetToUsageLoop(accounts: seq<string>, report: Report, extra: int) returns (o: Outcome)
    ensures o == SetToUsage(accounts, report, extra)
  {
    var issued: seq<Command> := [];
    var i := 0;
    PendingStart(accounts, report, extra);
    while i < |accounts|
      invariant 0 <= i <= |accounts|
      invariant Pending(accounts, report, extra, i, issued)
    {
      var us := accounts[i];
      if us !in report.records {
        PendingMissing(accounts, report, extra, i, issued);
        return Outcome(issued, Some(MissingEntry));
      }
      var rec := report.records[us];
      var next := if rec.limit != rec.used + extra then issued + [SetQuota(User, us, rec.used + extra)] else issued;
      PendingStep(accounts, report, extra, i, issued, next);
      issued, i := next, i + 1;
    }
    PendingDone(accounts, report, extra, issued);
    return Outcome(issued, None);
  }

  predicate HasCategories(users: map<Category, seq<string>>)
  {
    Teachers in users && Students in users && DomainUsers in users
  }

  /** `teachers + students`, in that order (an account in both is listed twice). */
  function Privileged(users: map<Category, seq<string>>): seq<string>
    requires HasCategories(users)
  {
    users[Teachers] + users[Students]
  }

  /** The Domain Users that are neither teachers nor students. */
  function NonPrivileged(users: map<Category, seq<string>>): seq<string>
    requires HasCategories(users)
  {
    Without(users[DomainUsers], Privileged(users))
  }

  /** The decision of `apply_calculated_quota_users` on its snapshot: a
      missing category is a type error; with room left nothing happens;
      on a heavily loaded disk the non-privileged are capped at their
      usage and the privileged get the grace; otherwise only the
      non-privileged are capped, with the grace. */
  function UserPolicy(sizes: DerivedSizes, users: map<Category, seq<string>>, report: Report): (o: Outcome)
    ensures !HasCategories(users) ==> o == Outcome([], Some(TypeError))
    ensures HasCategories(users) && sizes.remaining >= 0 ==> o == Outcome([], None)
    ensures o.failure.Some? ==> o.failure == Some(TypeError) || o.failure == Some(MissingEntry)
    ensures forall c :: c in o.issued ==> c.kind == User && c.target in report.records
  {
    if !HasCategories(users) then Outcome([], Some(TypeError))
    else if sizes.remaining >= 0 then Outcome([], None)
    else if (sizes.fsAvailable as real) < sizes.fsHeavyLimit then
      SetToUsageIssued(NonPrivileged(users), report, 0);
      SetToUsageFailure(NonPrivileged(users), report, 0);
      SetToUsageIssued(Privileged(users), report, Grace);
      SetToUsageFailure(Privileged(users), report, Grace);
      Then(SetToUsage(NonPrivileged(users), report, 0), SetToUsage(Privileged(users), report, Grace))
    else
      SetToUsageIssued(NonPrivileged(users), report, Grace);
      SetToUsageFailure(NonPrivileged(users), report, Grace);
      SetToUsage(NonPrivileged(users), report, Grace)
  }

  /** `apply_calculated_quota_users()`: the sizes, then the accounts, then
      the user report, each failure ending the pass before any command. */
  function UsersPass(userOut: string, groupOut: string, dfOut: string,
                     listing: seq<DirEntry>, idOut: map<string, string>): Outcome
  {
    match SizesOf(userOut, groupOut, dfOut)
    case Err(e) => Outcome([], Some(e))
    case Ok(sizes) =>
      match UsersGroups(listing, idOut)
      case Err(e) => Outcome([], Some(e))
      case Ok(accounts) =>
        match Classification(accounts)
        case Err(e) => Outcome([], Some(e))
        case Ok(users) =>
          match ReportOf("u", userOut)
          case Err(e) => Outcome([], Some(e))
          case Ok(report) => UserPolicy(sizes, users, report)
  }

  /** A pass issues commands only when the sizes read and show the room
      left to Domain Users exhausted. */
  lemma CommandsOnlyUnderPressure(userOut: string, groupOut: string, dfOut: string,
                                  listing: seq<DirEntry>, idOut: map<string, string>)
    ensures UsersPass(userOut, groupOut, dfOut, listing, idOut).issued != [] ==>
              SizesOf(userOut, groupOut, dfOut).Ok? && SizesOf(userOut, groupOut, dfOut).value.remaining < 0
  {
  }

  method ApplyCalculatedQuotaUsers(userOut: string, groupOut: string, dfOut: string,
                                   listing: seq<DirEntry>, idOut: map<string, string>)
    returns (o: Outcome)
    ensures o == UsersPass(userOut, groupOut, dfOut, listing, idOut)
  {
    var sizes := SizesOf(userOut, groupOut, dfOut);
    if sizes.Err? {
      return Outcome([], Some(sizes.error));
    }
    var accounts := UsersGroups(listing, idOut);
    if accounts.Err? {
      return Outcome([], Some(accounts.error));
    }
    var users := GetDomainUsers(accounts.value);
    if users.Err? {
      return Outcome([], Some(users.error));
    }
    // The user report was read, and parsed, for the sizes already.
    var report := GetRepquota("u", userOut);
    o := EnforceUserPolicy(sizes.value, users.value, report.value);
  }

  /** The decision of `apply_calculated_quota_users`, once its snapshot is
      read: the category lists, then the loops. */
  method EnforceUserPolicy(sizes: DerivedSizes, users: map<Category, seq<string>>, report: Report)
    returns (o: Outcome)
    ensures o == UserPolicy(sizes, users, report)
  {
    if !(Teachers in users && Students in users && DomainUsers in users) {
      return Outcome([], Some(TypeError));
    }
    var privileged := users[Teachers] + users[Students];
    var nonPrivileged := Without(users[DomainUsers], privileged);
    if sizes.remaining >= 0 {
      return Outcome([], None);
    }
    if (sizes.fsAvailable as real) < sizes.fsHeavyLimit {
      var first := SetToUsageLoop(nonPrivileged, report, 0);
      if first.failure.Some? {
        return first;
      }
      var second := SetToUsageLoop(privileged, report, Grace);
      o := Outcome(first.issued + second.issued, second.failure);
    } else {
      o := SetToUsageLoop(nonPrivileged, report, Grace);
    }
  }

  /** With no accounts the classification is empty, and the user policy
      fails on it whenever it is reached. */
  lemma NoAccountsFails(sizes: DerivedSizes, report: Report)
    ensures Classification([]) == Ok(map[])
    ensures UserPolicy(sizes, map[], report) == Outcome([], Some(TypeError))
  {
  }

  /** A non-privileged account is capped at its usage on a heavily loaded
      disk and at usage plus the grace otherwise; a privileged one only
      ever gets usage plus the grace. */
  lemma CommandValues(sizes: DerivedSizes, users: map<Category, seq<string>>, report: Report)
    requires HasCategories(users)
    ensures var heavy := (sizes.fsAvailable as real) < sizes.fsHeavyLimit;
            forall c :: c in UserPolicy(sizes, users, report).issued ==>
              && c.kind == User && c.target in report.records
              && (c.target in NonPrivileged(users) ==>
                    c.value == report.records[c.target].used + (if heavy then 0 else Grace))
              && (c.target in Privileged(users) ==> heavy && c.value == report.records[c.target].used + Grace)
  {
    SetToUsageIssued(NonPrivileged(users), report, 0);
    SetToUsageIssued(NonPrivileged(users), report, Grace);
    SetToUsageIssued(Privileged(users), report, Grace);
  }

  ghost predicate AllReported(users: map<Category, seq<string>>, report: Report)
    requires HasCategories(users)
  {
    forall a :: a in users[DomainUsers] || a in Privileged(users) ==> a in report.records
  }

  /** The commands set every listed account that is off to its usage
      plus `extra`, and give none of them any other value. */
  ghost predicate SetsTo(cmds: seq<Command>, accounts: seq<string>, report: Report, extra: int)
  {
    && (forall a :: a in accounts ==> a in report.records)
    && (forall c :: c in cmds && c.kind == User && c.target in accounts ==>
          c.target in report.records && c.value == report.records[c.target].used + extra)
    && (forall a :: a in accounts && report.records[a].limit != report.records[a].used + extra ==>
          SetQuota(User, a, report.records[a].used + extra) in cmds)
  }

  /** Such commands settle the list: each limit is then exactly usage
      plus `extra`, and a later loop over the list issues nothing. */
  lemma PassSettles(report: Report, accounts: seq<string>, extra: int, cmds: seq<Command>)
    requires report.Valid() && SetsTo(cmds, accounts, report, extra)
    ensures var after := AfterCommands(report, User, cmds);
            && (forall a :: a in accounts ==> after.records[a].limit == report.records[a].used + extra)
            && SetToUsage(accounts, after, extra) == Outcome([], None)
  {
    var after := AfterCommands(report, User, cmds);
    forall a | a in accounts
      ensures after.records[a].limit == report.records[a].used + extra
    {
      Settled(report, User, cmds, a, report.records[a].used + extra);
    }
    SetToUsageSettled(accounts, after, extra);
  }

  /** A loop over reported accounts sets exactly those that are off. */
  lemma SetToUsageSetsTo(accounts: seq<string>, report: Report, extra: int)
    requires forall a :: a in accounts ==> a in report.records
    ensures SetToUsage(accounts, report, extra).failure == None
    ensures SetsTo(SetToUsage(accounts, report, extra).issued, accounts, report, extra)
  {
    SetToUsageFailure(accounts, report, extra);
    SetToUsageIssued(accounts, report, extra);
    SetToUsageComplete(accounts, report, extra);
  }

  /** The heavy pass's commands set the non-privileged to their usage and
      the privileged to usage plus the grace. */
  lemma HeavyCommands(sizes: DerivedSizes, users: map<Category, seq<string>>, report: Report)
    requires report.Valid() && HasCategories(users) && AllReported(users, report)
    requires sizes.remaining < 0 && (sizes.fsAvailable as real) < sizes.fsHeavyLimit
    ensures UserPolicy(sizes, users, report).failure == None
    ensures SetsTo(UserPolicy(sizes, users, report).issued, NonPrivileged(users), report, 0)
    ensures SetsTo(UserPolicy(sizes, users, report).issued, Privileged(users), report, Grace)
  {
    var nonPrivileged := NonPrivileged(users);
    var privileged := Privileged(users);
    var first := SetToUsage(nonPrivileged, report, 0);
    var second := SetToUsage(privileged, report, Grace);
    SetToUsageSetsTo(nonPrivileged, report, 0);
    SetToUsageSetsTo(privileged, report, Grace);
    assert UserPolicy(sizes, users, report) == Outcome(first.issued + second.issued, None);
    SetToUsageIssued(privileged, report, Grace);
    SetToUsageIssued(nonPrivileged, report, 0);
  }

  /** On a heavily loaded disk, once the pass's commands have taken
      effect, every non-privileged account is capped at its usage, every
      privileged one at usage plus the grace, and a second pass over the
      new report issues nothing. */
  lemma HeavyPassSettles(sizes: DerivedSizes, users: map<Category, seq<string>>, report: Report)
    requires report.Valid() && HasCategories(users) && AllReported(users, report)
    requires sizes.remaining < 0 && (sizes.fsAvailable as real) < sizes.fsHeavyLimit
    ensures UserPolicy(sizes, users, report).failure == None
    ensures var after := AfterCommands(report, User, UserPolicy(sizes, users, report).issued);
            && (forall a :: a in NonPrivileged(users) ==> after.records[a].limit == report.records[a].used)
            && (forall a :: a in Privileged(users) ==> after.records[a].limit == report.records[a].used + Grace)
            && UserPolicy(sizes, users, after) == Outcome([], None)
  {
    var cmds := UserPolicy(sizes, users, report).issued;
    HeavyCommands(sizes, users, report);
    PassSettles(report, NonPrivileged(users), 0, cmds);
    PassSettles(report, Privileged(users), Grace, cmds);
    assert Outcome([] + [], None) == Outcome([], None);
  }

  /** Otherwise, once the commands have taken effect, every non-privileged
      account is capped at usage plus the grace, the privileged are left
      as they were, and a second pass issues nothing. */
  lemma LightPassSettles(sizes: DerivedSizes, users: map<Category, seq<string>>, report: Report)
    requires report.Valid() && HasCategories(users) && AllReported(users, report)
    requires sizes.remaining < 0 && !((sizes.fsAvailable as real) < sizes.fsHeavyLimit)
    ensures UserPolicy(sizes, users, report).failure == None
    ensures var after := AfterCommands(report, User, UserPolicy(sizes, users, report).issued);
            && (forall a :: a in NonPrivileged(users) ==> after.records[a].limit == report.records[a].used + Grace)
            && (forall a :: a in Privileged(users) ==> after.records[a] == report.records[a])
            && UserPolicy(sizes, users, after) == Outcome([], None)
  {
    var nonPrivileged := NonPrivileged(users);
    var cmds := SetToUsage(nonPrivileged, report, Grace).issued;
    SetToUsageSetsTo(nonPrivileged, report, Grace);
    PassSettles(report, nonPrivileged, Grace, cmds);
    SetToUsageIssued(nonPrivileged, report, Grace);
    forall a | a in Privileged(users)
      ensures AfterCommands(report, User, cmds).records[a] == report.records[a]
    {
      Untouched(report, User, cmds, a);
    }
  }

  /** An account that is both a teacher and a student is listed twice
      among the privileged, and under pressure gets the same command twice. */
  lemma TwiceListed()
    ensures var users := map[DomainUsers := ["ann"], Teachers := ["ann"], Students := ["ann"]];
            var report := Report(["ann"], map["ann" := QuotaRecord(false, 10, 0)]);
            var sizes := DerivedSizes(NeedAvailable, NeedAvailableAdmins, 0, 0, 0, 0, HeavyLimit, 0, -1);
            UserPolicy(sizes, users, report)
            == Outcome([SetQuota(User, "ann", 10 + Grace), SetQuota(User, "ann", 10 + Grace)], None)
  {
    var users := map[DomainUsers := ["ann"], Teachers := ["ann"], Students := ["ann"]];
    var report := Report(["ann"], map["ann" := QuotaRecord(false, 10, 0)]);
    assert NonPrivileged(users) == [];
    assert Privileged(users) == ["ann", "ann"];
    assert Privileged(users)[1..] == ["ann"];
    assert SetToUsage(["ann"], report, Grace) == Outcome([SetQuota(User, "ann", 10 + Grace)], None);
  }

  // ---------------------------------------------------------------------
  // reset_quota and reset_all_quotas

  /** The commands that clear every nonzero limit, in report order. */
  function ResetCommands(kind: Kind, names: seq<string>, records: map<string, QuotaRecord>): (cmds: seq<Command>)
    requires forall n :: n in names ==> n in records
    ensures |cmds| <= |names|
  {
    if |names| == 0 then []
    else
      var last := names[|names| - 1];
      ResetCommands(kind, names[..|names| - 1], records)
        + (if records[last].limit != 0 then [SetQuota(kind, last, 0)] else [])
  }

  /** A full reset clears exactly the listed entries whose limit is nonzero. */
  lemma {:induction false} ResetCommandsIff(kind: Kind, names: seq<string>, records: map<string, QuotaRecord>)
    requires forall n :: n in names ==> n in records
    ensures forall c :: c in ResetCommands(kind, names, records) <==>
              c.kind == kind && c.target in names && records[c.target].limit != 0 && c.value == 0
  {
    if |names| > 0 {
      var init := names[..|names| - 1];
      assert forall n :: n in names <==> n in init || n == names[|names| - 1];
      ResetCommandsIff(kind, init, records);
    }
  }

  /** With every limit already zero a full reset issues nothing. */
  lemma {:induction false} ResetCommandsNone(kind: Kind, names: seq<string>, records: map<string, QuotaRecord>)
    requires forall n :: n in names ==> n in records && records[n].limit == 0
    ensures ResetCommands(kind, names, records) == []
  {
    if |names| > 0 {
      assert names[|names| - 1] in names;
      assert forall n :: n in names[..|names| - 1] ==> n in names;
      ResetCommandsNone(kind, names[..|names| - 1], records);
    }
  }

  /** `reset_quota(target, t)`, `out` being the report of kind `t`: a
      non-empty target is cleared if its limit is nonzero (an error when
      it is not reported); no target, or the empty string, clears every
      entry with a nonzero limit. */
  function Reset(target: Option<string>, t: string, out: string): (o: Outcome)
    ensures KindOf(t).Err? ==> o == Outcome([], Some(TypeError))
    ensures KindOf(t).Ok? && ReportOf(t, out).Err? ==> o == Outcome([], Some(ReportOf(t, out).error))
    ensures forall c :: c in o.issued ==> c.value == 0 && (c.kind == User <==> t == "u")
    ensures ReportOf(t, out).Ok? && target.Some? && target.value != "" ==>
              var records := ReportOf(t, out).value.records;
              && (o.failure.Some? <==> target.value !in records)
              && (o.failure.Some? ==> o == Outcome([], Some(InvalidTarget)))
              && |o.issued| <= 1
              && (o.failure.None? ==> (o.issued != [] <==> records[target.value].limit != 0))
              && forall c :: c in o.issued ==> c.target == target.value
    ensures ReportOf(t, out).Ok? && (target.None? || target.value == "") ==>
              var records := ReportOf(t, out).value.records;
              && o.failure.None?
              && forall c :: c in o.issued <==>
                   && c.kind == KindOf(t).value && c.target in records
                   && records[c.target].limit != 0 && c.value == 0
  {
    match KindOf(t)
    case Err(e) => Outcome([], Some(e))
    case Ok(kind) =>
      match ReportOf(t, out)
      case Err(e) => Outcome([], Some(e))
      case Ok(report) =>
        if target.Some? && target.value != "" then
          if target.value !in report.records then Outcome([], Some(InvalidTarget))
          else if report.records[target.value].limit != 0 then Outcome([SetQuota(kind, target.value, 0)], None)
          else Outcome([], None)
        else
          ResetCommandsIff(kind, report.names, report.records);
          Outcome(ResetCommands(kind, report.names, report.records), None)
  }

  method ResetQuota(target: Option<string>, t: string, out: string) returns (o: Outcome)
    ensures o == Reset(target, t, out)
  {
    if t != "u" && t != "g" {
      return Outcome([], Some(TypeError));
    }
    var kind := if t == "u" then User else Group;
    var data := GetRepquota(t, out);
    if data.Err? {
      return Outcome([], Some(data.error));
    }
    var report := data.value;
    if target.Some? && target.value != "" {
      if target.value !in report.records {
        return Outcome([], Some(InvalidTarget));
      }
      if report.records[target.value].limit != 0 {
        return Outcome([SetQuota(kind, target.value, 0)], None);
      }
      return Outcome([], None);
    }
    var issued: seq<Command> := [];
    var i := 0;
    while i < |report.names|
      invariant 0 <= i <= |report.names|
      invariant issued == ResetCommands(kind, report.names[..i], report.records)
    {
      var name := report.names[i];
      assert report.names[..i + 1][..i] == report.names[..i];
      if report.records[name].limit != 0 {
        issued := issued + [SetQuota(kind, name, 0)];
      }
      i := i + 1;
    }
    assert report.names[..i] == report.names;
    return Outcome(issued, None);
  }

  /** Once a full reset has taken effect every limit of the report is zero,
      and a second reset issues nothing. */
  lemma ResetSettles(kind: Kind, report: Report)
    requires report.Valid()
    ensures var after := AfterCommands(report, kind, ResetCommands(kind, report.names, report.records));
            && (forall n :: n in after.records ==> after.records[n].limit == 0)
            && ResetCommands(kind, after.names, after.records) == []
  {
    var cmds := ResetCommands(kind, report.names, report.records);
    ResetCommandsIff(kind, report.names, report.records);
    var after := AfterCommands(report, kind, cmds);
    forall n | n in after.records
      ensures after.records[n].limit == 0
    {
      Settled(report, kind, cmds, n, 0);
    }
    ResetCommandsNone(kind, after.names, after.records);
  }

  /** `reset_all_quotas()`: every user quota, then every group quota. */
  function ResetAll(userOut: string, groupOut: string): Outcome
  {
    Then(Reset(None, "u", userOut), Reset(None, "g", groupOut))
  }

  method ResetAllQuotas(userOut: string, groupOut: string) returns (o: Outcome)
    ensures o == ResetAll(userOut, groupOut)
  {
    var users := ResetQuota(None, "u", userOut);
    if users.failure.Some? {
      return users;
    }
    var groups := ResetQuota(None, "g", groupOut);
    return Outcome(users.issued + groups.issued, groups.failure);
  }

  /** When both reports read, a full reset leaves every user and every
      group limit at zero once its commands have taken effect. */
  lemma ResetAllClears(userOut: string, groupOut: string)
    requires ReportOf("u", userOut).Ok? && ReportOf("g", groupOut).Ok?
    ensures ResetAll(userOut, groupOut).failure == None
    ensures var cmds := ResetAll(userOut, groupOut).issued;
            && (forall n :: n in AfterCommands(ReportOf("u", userOut).value, User, cmds).records ==>
                  AfterCommands(ReportOf("u", userOut).value, User, cmds).records[n].limit == 0)
            && (forall n :: n in AfterCommands(ReportOf("g", groupOut).value, Group, cmds).records ==>
                  AfterCommands(ReportOf("g", groupOut).value, Group, cmds).records[n].limit == 0)
  {
    var users := ReportOf("u", userOut).value;
    var groups := ReportOf("g", groupOut).value;
    var cu := ResetCommands(User, users.names, users.records);
    var cg := ResetCommands(Group, groups.names, groups.records);
    ResetCommandsIff(User, users.names, users.records);
    ResetCommandsIff(Group, groups.names, groups.records);
    var cmds := cu + cg;
    assert ResetAll(userOut, groupOut) == Outcome(cmds, None);
    forall n | n in users.records
      ensures AfterCommands(users, User, cmds).records[n].limit == 0
    {
      Settled(users, User, cmds, n, 0);
    }
    forall n | n in groups.records
      ensures AfterCommands(groups, Group, cmds).records[n].limit == 0
    {
      Settled(groups, Group, cmds, n, 0);
    }
  }
}
