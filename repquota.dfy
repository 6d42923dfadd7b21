/** The quota report: the text `repquota -O csv -u /` or `-g /` prints,
    parsed into one record per user or group, and the over-limit query
    on it. */
module Repquota {
  import opened Base
  import opened Text

  /** Which quota table a call is about: `-u` users or `-g` groups. */
  datatype Kind = User | Group

  /** The kind a `"u"`/`"g"` argument names; any other string is a type error. */
  function KindOf(t: string): (r: Result<Kind>)
    ensures r.Ok? <==> t == "u" || t == "g"
    ensures r.Ok? ==> (r.value == User <==> t == "u")
  {
    if t == "u" then Ok(User) else if t == "g" then Ok(Group) else Err(TypeError)
  }

  /** The block part of one report row: over-limit flag, usage and hard limit. */
  datatype QuotaRecord = QuotaRecord(status: bool, used: int, limit: int)

  /** A Python dict from entity name to record: the keys in insertion order and the values. */
  datatype Report = Report(names: seq<string>, records: map<string, QuotaRecord>)
  {
    ghost predicate Valid()
    {
      && (forall i, j :: 0 <= i < j < |names| ==> names[i] != names[j])
      && (forall n :: n in records <==> n in names)
    }
  }

  const Empty := Report([], map[])

  /** `d[name] = rec`: a new key goes last, an existing key keeps its place. */
  function Put(r: Report, name: string, rec: QuotaRecord): (r': Report)
    requires r.Valid()
    ensures r'.Valid()
  {
    if name in r.records then Report(r.names, r.records[name := rec])
    else Report(r.names + [name], r.records[name := rec])
  }

  /** One data row: exactly 11 comma-separated fields, the name first,
      the block status second, block usage fourth and block hard limit sixth. */
  function ParseRow(line: string): Result<(string, QuotaRecord)>
  {
    var f := Split(line, ',');
    if |f| != 11 then Err(ParseError)
    else match ParseInt(f[3])
      case None => Err(ValueError)
      case Some(used) =>
        match ParseInt(f[5])
        case None => Err(ValueError)
        case Some(limit) => Ok((f[0], QuotaRecord(f[1] != "ok", used, limit)))
  }

  /** The dict built from the data lines, blank lines skipped, starting from `acc`. */
  function ParseLines(lines: seq<string>, acc: Report): (r: Result<Report>)
    requires acc.Valid()
    ensures r.Ok? ==> r.value.Valid()
  {
    if |lines| == 0 then Ok(acc)
    else if lines[0] == "" then ParseLines(lines[1..], acc)
    else match ParseRow(lines[0])
      case Err(e) => Err(e)
      case Ok(row) => ParseLines(lines[1..], Put(acc, row.0, row.1))
  }

  /** What `get_repquota(t)` returns for the report text `out`. */
  function ReportOf(t: string, out: string): (r: Result<Report>)
    ensures r.Ok? ==> r.value.Valid()
  {
    var _ :- KindOf(t);
    ParseLines(Split(out, '\n')[1..], Empty)
  }

  /** A row that does not parse ends the parse with its error. */
  lemma ParseLinesFails(lines: seq<string>, i: nat, acc: Report)
    requires i < |lines| && acc.Valid()
    requires lines[i] != "" && ParseRow(lines[i]).Err?
    ensures ParseLines(lines[i..], acc) == Err(ParseRow(lines[i]).error)
  {
    assert lines[i..][0] == lines[i];
  }

  /** Otherwise the line at `i` is skipped when empty, or added, and the
      rest of the lines give the same. */
  lemma ParseLinesStep(lines: seq<string>, i: nat, acc: Report, next: Report)
    requires i < |lines| && acc.Valid()
    requires lines[i] == "" ==> next == acc
    requires lines[i] != "" ==>
               ParseRow(lines[i]).Ok? && next == Put(acc, ParseRow(lines[i]).value.0, ParseRow(lines[i]).value.1)
    ensures next.Valid()
    ensures ParseLines(lines[i + 1..], next) == ParseLines(lines[i..], acc)
  {
    assert lines[i..][0] == lines[i];
    assert lines[i..][1..] == lines[i + 1..];
  }

  /** `get_repquota`: drop the header line, then add the rows one by one. */
  method GetRepquota(t: string, out: string) returns (r: Result<Report>)
    ensures r == ReportOf(t, out)
  {
    if t != "u" && t != "g" {
      return Err(TypeError);
    }
    var lines := Split(out, '\n')[1..];
    var ret := Empty;
    var i := 0;
    while i < |lines|
      invariant 0 <= i <= |lines|
      invariant ret.Valid()
      invariant ParseLines(lines[i..], ret) == ParseLines(lines, Empty)
    {
      var line := lines[i];
      var next := ret;
      if line != "" {
        var row := ParseRow(line);
        if row.Err? {
          ParseLinesFails(lines, i, ret);
          return Err(row.error);
        }
        next := Put(ret, row.value.0, row.value.1);
      }
      ParseLinesStep(lines, i, ret, next);
      ret, i := next, i + 1;
    }
    assert lines[i..] == [];
    return Ok(ret);
  }

  /** A row as `repquota -O csv` prints it. */
  function RenderRow(name: string, blockStatus: string, fileStatus: string,
                     used: int, soft: int, hard: int, blockGrace: string,
                     fileUsed: int, fileSoft: int, fileHard: int, fileGrace: string): string
  {
    Join([name, blockStatus, fileStatus, IntToString(used), IntToString(soft), IntToString(hard),
          blockGrace, IntToString(fileUsed), IntToString(fileSoft), IntToString(fileHard), fileGrace], ',')
  }

  /** A printed row parses back to its name, its over-limit flag (status other
      than "ok"), its block usage and its block HARD limit. */
  lemma ParseRenderedRow(name: string, blockStatus: string, fileStatus: string,
                         used: int, soft: int, hard: int, blockGrace: string,
                         fileUsed: int, fileSoft: int, fileHard: int, fileGrace: string)
    requires ',' !in name && ',' !in blockStatus && ',' !in fileStatus
    requires ',' !in blockGrace && ',' !in fileGrace
    ensures ParseRow(RenderRow(name, blockStatus, fileStatus, used, soft, hard, blockGrace,
                               fileUsed, fileSoft, fileHard, fileGrace))
            == Ok((name, QuotaRecord(blockStatus != "ok", used, hard)))
  {
    var fields := [name, blockStatus, fileStatus, IntToString(used), IntToString(soft), IntToString(hard),
                   blockGrace, IntToString(fileUsed), IntToString(fileSoft), IntToString(fileHard), fileGrace];
    forall i | 0 <= i < |fields| ensures ',' !in fields[i] {
      if i in {3, 4, 5, 7, 8, 9} {
        assert ',' in fields[i] ==> !(',' == '-' || IsDigit(','));
      }
    }
    SplitJoin(fields, ',');
    ParseShow(used);
    ParseShow(hard);
  }

  /** Only the first line is dropped, whatever it holds. */
  lemma HeaderDropped(t: string, header: string, body: string)
    requires t == "u" || t == "g"
    requires '\n' !in header
    ensures ReportOf(t, header + "\n" + body) == ParseLines(Split(body, '\n'), Empty)
  {
    var rest := "\n" + body;
    assert header + "\n" + body == header + rest;
    SplitAfterPiece(header, rest, '\n');
    assert rest[0] == '\n' && rest[1..] == body;
    assert Split(rest, '\n') == [""] + Split(body, '\n');
  }

  /** The parse succeeds exactly when every non-blank line is a good row. */
  lemma {:induction false} ParseLinesOk(lines: seq<string>, acc: Report)
    requires acc.Valid()
    ensures ParseLines(lines, acc).Ok?
            <==> forall i :: 0 <= i < |lines| && lines[i] != "" ==> ParseRow(lines[i]).Ok?
  {
    if |lines| > 0 {
      var next := if lines[0] == "" || ParseRow(lines[0]).Err? then acc
                  else Put(acc, ParseRow(lines[0]).value.0, ParseRow(lines[0]).value.1);
      ParseLinesOk(lines[1..], next);
      assert forall i :: 1 <= i < |lines| ==> lines[i] == lines[1..][i - 1];
    }
  }

  /** `line` is a data row for the entity `n`. */
  predicate RowNames(line: string, n: string)
  {
    line != "" && ParseRow(line).Ok? && ParseRow(line).value.0 == n
  }

  /** The names in the parsed dict: those already there and those of the rows. */
  lemma {:induction false} ParseLinesNames(lines: seq<string>, acc: Report)
    requires acc.Valid()
    requires ParseLines(lines, acc).Ok?
    ensures forall n :: n in ParseLines(lines, acc).value.records
                        <==> n in acc.records || exists i :: 0 <= i < |lines| && RowNames(lines[i], n)
  {
    if |lines| > 0 {
      assert forall i :: 1 <= i < |lines| ==> lines[i] == lines[1..][i - 1];
      if lines[0] == "" {
        ParseLinesNames(lines[1..], acc);
      } else {
        var row := ParseRow(lines[0]).value;
        ParseLinesNames(lines[1..], Put(acc, row.0, row.1));
      }
    }
  }

  /** No later row names `n`: its record in `acc` survives. */
  lemma {:induction false} ParseLinesKeeps(lines: seq<string>, acc: Report, n: string)
    requires acc.Valid()
    requires ParseLines(lines, acc).Ok?
    requires n in acc.records
    requires forall i :: 0 <= i < |lines| ==> !RowNames(lines[i], n)
    ensures n in ParseLines(lines, acc).value.records
    ensures ParseLines(lines, acc).value.records[n] == acc.records[n]
  {
    if |lines| > 0 {
      assert forall i :: 1 <= i < |lines| ==> lines[i] == lines[1..][i - 1];
      assert !RowNames(lines[0], n);
      if lines[0] == "" {
        ParseLinesKeeps(lines[1..], acc, n);
      } else {
        var row := ParseRow(lines[0]).value;
        ParseLinesKeeps(lines[1..], Put(acc, row.0, row.1), n);
      }
    }
  }

  /** A later row with the same name overwrites an earlier one: the record
      kept is that of the last row naming the entity. */
  lemma {:induction false} ParseLinesLastWins(lines: seq<string>, acc: Report, k: nat, n: string, rec: QuotaRecord)
    requires acc.Valid()
    requires ParseLines(lines, acc).Ok?
    requires k < |lines| && lines[k] != "" && ParseRow(lines[k]) == Ok((n, rec))
    requires forall j :: k < j < |lines| ==> !RowNames(lines[j], n)
    ensures n in ParseLines(lines, acc).value.records
    ensures ParseLines(lines, acc).value.records[n] == rec
  {
    assert forall i :: 1 <= i < |lines| ==> lines[i] == lines[1..][i - 1];
    if k == 0 {
      ParseLinesKeeps(lines[1..], Put(acc, n, rec), n);
    } else if lines[0] == "" {
      ParseLinesLastWins(lines[1..], acc, k - 1, n, rec);
    } else {
      var row := ParseRow(lines[0]).value;
      ParseLinesLastWins(lines[1..], Put(acc, row.0, row.1), k - 1, n, rec);
    }
  }

  /** What `get_exausted_quota` returns: one target's flag, or all flagged names. */
  datatype Exhausted = Flag(over: bool) | Names(names: seq<string>)

  /** The names whose over-limit flag is set, in dict order. */
  function OverLimitNames(names: seq<string>, records: map<string, QuotaRecord>): (r: seq<string>)
    requires forall n :: n in names ==> n in records
    ensures forall n :: n in r <==> n in names && records[n].status
    ensures |r| <= |names| && Subsequence(r, names)
  {
    if |names| == 0 then []
    else
      var rest := OverLimitNames(names[1..], records);
      assert names == [names[0]] + names[1..];
      if records[names[0]].status then
        assert ([names[0]] + rest)[1..] == rest;
        [names[0]] + rest
      else
        SubsequenceSkip(rest, names[0], names[1..]);
        rest
  }

  /** `get_exausted_quota(target, t)`: a non-empty target gets its own flag
      (an error when it is not in the report); no target, or the empty
      string, gets the list of every entity over its limit. */
  function GetExhaustedQuota(target: Option<string>, t: string, out: string): (r: Result<Exhausted>)
    ensures ReportOf(t, out).Err? ==> r == Err(ReportOf(t, out).error)
    ensures ReportOf(t, out).Ok? && target.Some? && target.value != "" ==>
              var records := ReportOf(t, out).value.records;
              && (r.Ok? <==> target.value in records)
              && (r.Ok? ==> r == Ok(Flag(records[target.value].status)))
              && (r.Err? ==> r == Err(InvalidTarget))
    ensures ReportOf(t, out).Ok? && (target.None? || target.value == "") ==>
              var records := ReportOf(t, out).value.records;
              && r.Ok? && r.value.Names?
              && Subsequence(r.value.names, ReportOf(t, out).value.names)
              && forall n :: n in r.value.names <==> n in records && records[n].status
  {
    var report :- ReportOf(t, out);
    if target.Some? && target.value != "" then
      if target.value !in report.records then Err(InvalidTarget)
      else Ok(Flag(report.records[target.value].status))
    else Ok(Names(OverLimitNames(report.names, report.records)))
  }
}
