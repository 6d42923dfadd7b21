/** The figures the enforcement policy is computed from: the group cap
    for Domain Users and the signed room left to its members. */
module Sizes {
  import opened Base
  import opened Repquota
  import opened Capacity
  import Accounts

  /** `int((0.3 + 0.2) * 1024 * 1024)`: blocks kept free for everyone. */
  const NeedAvailable := 524288
  /** `int(0.5 * 1024 * 1024)`: blocks kept free for the administrators. */
  const NeedAvailableAdmins := 524288
  /** `0.3 * 1024 * 1024`: below this many available blocks the system is heavily loaded. */
  const HeavyLimit: real := 0.3 * 1024.0 * 1024.0

  const DomainUsersGroup := Accounts.Name(Accounts.DomainUsers)

  datatype DerivedSizes = DerivedSizes(
    needAvailable: int,
    needAvailableAdmins: int,
    sizeLocalGroups: int,
    sizeDomain: int,
    totalUsableFs: int,
    fsAvailable: int,
    fsHeavyLimit: real,
    quotaDomains: int,
    remaining: int)

  /** The usage of every group but Domain Users, added up in dict order;
      `None` where the `reduce` has nothing to add. */
  function LocalGroupsUsage(names: seq<string>, records: map<string, QuotaRecord>): (r: Option<int>)
    requires forall n :: n in names ==> n in records
    ensures r.None? <==> forall i :: 0 <= i < |names| ==> names[i] == DomainUsersGroup
  {
    if |names| == 0 then None
    else
      var rest := LocalGroupsUsage(names[1..], records);
      if names[0] == DomainUsersGroup then rest
      else Some(records[names[0]].used + (if rest.Some? then rest.value else 0))
  }

  /** The usage of all the groups. */
  function TotalUsage(names: seq<string>, records: map<string, QuotaRecord>): int
    requires forall n :: n in names ==> n in records
  {
    if |names| == 0 then 0 else records[names[0]].used + TotalUsage(names[1..], records)
  }

  /** Every group but Domain Users is counted once in the local usage. */
  lemma {:induction false} LocalPlusDomain(names: seq<string>, records: map<string, QuotaRecord>)
    requires forall n :: n in names ==> n in records
    requires forall i, j :: 0 <= i < j < |names| ==> names[i] != names[j]
    ensures var local := LocalGroupsUsage(names, records);
            TotalUsage(names, records)
            == (if local.Some? then local.value else 0)
               + (if DomainUsersGroup in names then records[DomainUsersGroup].used else 0)
  {
    if |names| > 0 {
      LocalPlusDomain(names[1..], records);
      if names[0] == DomainUsersGroup {
        assert DomainUsersGroup !in names[1..];
      } else {
        assert DomainUsersGroup in names ==> DomainUsersGroup in names[1..];
      }
    }
  }

  /** `calculate_sizes` on the group report and the capacity snapshot: it
      fails when no group but Domain Users is reported (nothing to
      `reduce`), or when Domain Users is not reported. */
  function CalculateSizes(groups: Report, df: Usage): (r: Result<DerivedSizes>)
    requires groups.Valid()
    ensures r.Ok? <==> DomainUsersGroup in groups.records && exists n :: n in groups.records && n != DomainUsersGroup
    ensures r.Ok? ==> r.value.quotaDomains - r.value.remaining == r.value.sizeDomain + NeedAvailableAdmins
    ensures r.Ok? ==> r.value.sizeDomain == groups.records[DomainUsersGroup].used
    ensures r.Ok? ==> r.value.fsAvailable == df.avail && r.value.fsHeavyLimit == HeavyLimit
    ensures r.Ok? ==> r.value.sizeLocalGroups + r.value.sizeDomain == TotalUsage(groups.names, groups.records)
    ensures r.Ok? ==> r.value.remaining
                      == df.used + df.avail - TotalUsage(groups.names, groups.records) - NeedAvailable - NeedAvailableAdmins
  {
    LocalPlusDomain(groups.names, groups.records);
    LocalGroupsReported(groups);
    var local := LocalGroupsUsage(groups.names, groups.records);
    Derive(local, if DomainUsersGroup in groups.records then Some(groups.records[DomainUsersGroup].used) else None, df)
  }

  /** There is local usage to add up exactly when some group other than
      Domain Users is reported. */
  lemma LocalGroupsReported(groups: Report)
    requires groups.Valid()
    ensures LocalGroupsUsage(groups.names, groups.records).Some?
            <==> exists n :: n in groups.records && n != DomainUsersGroup
  {
    var names := groups.names;
    if LocalGroupsUsage(names, groups.records).Some? {
      var i :| 0 <= i < |names| && names[i] != DomainUsersGroup;
      assert names[i] in groups.records;
    }
    if exists n :: n in groups.records && n != DomainUsersGroup {
      var n :| n in groups.records && n != DomainUsersGroup;
      var i :| 0 <= i < |names| && names[i] == n;
      assert !(forall j :: 0 <= j < |names| ==> names[j] == DomainUsersGroup);
    }
  }

  /** The figures themselves, from the local groups' usage, Domain Users'
      usage and the capacity; a missing sum or a missing Domain Users
      entry fails, in that order. */
  function Derive(local: Option<int>, domain: Option<int>, df: Usage): Result<DerivedSizes>
  {
    if local.None? then Err(EmptyReduce)
    else if domain.None? then Err(MissingEntry)
    else
      var total := df.used + df.avail;
      var quotaDomains := total - local.value - NeedAvailable;
      Ok(DerivedSizes(NeedAvailable, NeedAvailableAdmins, local.value, domain.value, total, df.avail,
                      HeavyLimit, quotaDomains, quotaDomains - domain.value - NeedAvailableAdmins))
  }

  /** `calculate_sizes()`: it reads the user report, the group report and
      the capacity, in that order, and fails with the first that fails. */
  function SizesOf(userOut: string, groupOut: string, dfOut: string): (r: Result<DerivedSizes>)
    ensures ReportOf("u", userOut).Err? ==> r == Err(ReportOf("u", userOut).error)
    ensures ReportOf("u", userOut).Ok? && ReportOf("g", groupOut).Err? ==> r == Err(ReportOf("g", groupOut).error)
    ensures ReportOf("u", userOut).Ok? && ReportOf("g", groupOut).Ok? && GetDf(dfOut).Err? ==>
              r == Err(GetDf(dfOut).error)
    ensures r.Ok? ==> ReportOf("u", userOut).Ok? && ReportOf("g", groupOut).Ok? && GetDf(dfOut).Ok?
    ensures ReportOf("u", userOut).Ok? && ReportOf("g", groupOut).Ok? && GetDf(dfOut).Ok? ==>
              r == CalculateSizes(ReportOf("g", groupOut).value, GetDf(dfOut).value)
  {
    var _ :- ReportOf("u", userOut);
    var groups :- ReportOf("g", groupOut);
    var df :- GetDf(dfOut);
    CalculateSizes(groups, df)
  }

  /** For an integer count, "below 0.3 * 1024 * 1024" is "at most 314572". */
  lemma HeavyExact(avail: int)
    ensures (avail as real) < HeavyLimit <==> 10 * avail < 3145728
    ensures (avail as real) < HeavyLimit <==> avail <= 314572
  {
  }

  /** The sizes depend on the usages, not on the limits. */
  lemma {:induction false} UsageOnly(names: seq<string>, a: map<string, QuotaRecord>, b: map<string, QuotaRecord>)
    requires forall n :: n in names ==> n in a && n in b && a[n].used == b[n].used
    ensures LocalGroupsUsage(names, a) == LocalGroupsUsage(names, b)
    ensures TotalUsage(names, a) == TotalUsage(names, b)
  {
    if |names| > 0 {
      UsageOnly(names[1..], a, b);
    }
  }

  lemma SizesIgnoreLimits(groups: Report, other: Report, df: Usage)
    requires groups.Valid() && other.Valid()
    requires other.names == groups.names
    requires forall n :: n in groups.records ==> groups.records[n].used == other.records[n].used
    ensures CalculateSizes(groups, df) == CalculateSizes(other, df)
  {
    UsageOnly(groups.names, groups.records, other.records);
    assert DomainUsersGroup in groups.records <==> DomainUsersGroup in other.records;
  }

  /** Domain Users at 800000 blocks and teachers at 50000, on a filesystem
      with 1000000 blocks used and 2000000 available: the group cap is
      3000000 - 50000 - 524288 and 1101424 blocks remain. */
  lemma WorkedExample()
    ensures var groups := Report([DomainUsersGroup, "teachers"],
                                 map[DomainUsersGroup := QuotaRecord(false, 800000, 0),
                                     "teachers" := QuotaRecord(false, 50000, 0)]);
            groups.Valid()
            && CalculateSizes(groups, Usage(1000000, 2000000)).Ok?
            && CalculateSizes(groups, Usage(1000000, 2000000)).value.quotaDomains == 2425712
            && CalculateSizes(groups, Usage(1000000, 2000000)).value.remaining == 1101424
  {
    var groups := Report([DomainUsersGroup, "teachers"],
                         map[DomainUsersGroup := QuotaRecord(false, 800000, 0),
                             "teachers" := QuotaRecord(false, 50000, 0)]);
    assert DomainUsersGroup != "teachers" by {
      assert |DomainUsersGroup| == 12;
    }
    assert groups.Valid();
    assert LocalGroupsUsage(groups.names[1..], groups.records) == Some(50000);
  }

  /** Neither figure is clamped: a full disk gives negative values. */
  lemma Unclamped()
    ensures var groups := Report([DomainUsersGroup, "teachers"],
                                 map[DomainUsersGroup := QuotaRecord(false, 300000, 0),
                                     "teachers" := QuotaRecord(false, 50000, 0)]);
            groups.Valid()
            && CalculateSizes(groups, Usage(350000, 100000)).Ok?
            && CalculateSizes(groups, Usage(350000, 100000)).value.quotaDomains < 0
            && CalculateSizes(groups, Usage(350000, 100000)).value.remaining < 0
  {
    var groups := Report([DomainUsersGroup, "teachers"],
                         map[DomainUsersGroup := QuotaRecord(false, 300000, 0),
                             "teachers" := QuotaRecord(false, 50000, 0)]);
    assert DomainUsersGroup != "teachers" by {
      assert |DomainUsersGroup| == 12;
    }
    assert groups.Valid();
    assert LocalGroupsUsage(groups.names[1..], groups.records) == Some(50000);
  }
}
