/** Accounts and their groups: the line `id <account>` prints, the
    accounts behind the home directories, and their classification into
    the three recognised categories. */
module Accounts {
  import opened Base
  import opened Text

  /** The three recognised categories, each named by a group. */
  datatype Category = DomainUsers | Teachers | Students

  function Name(c: Category): string
  {
    match c
    case DomainUsers => "Domain Users"
    case Teachers => "teachers"
    case Students => "students"
  }

  /** A secondary group; its gid stays the digit string it was printed as. */
  datatype OtherGroup = OtherGroup(gid: string, gname: string)

  datatype Identity = Identity(uid: int, name: string, gid: int, gname: string, others: seq<OtherGroup>)

  /** Length of the longest prefix of ASCII digits (`\d+` is greedy). */
  function DigitRun(s: string): (n: nat)
    ensures n <= |s| && AllDigits(s[..n])
    ensures n < |s| ==> !IsDigit(s[n])
  {
    if |s| == 0 || !IsDigit(s[0]) then 0
    else
      var n := DigitRun(s[1..]);
      assert s[..n + 1] == [s[0]] + s[1..][..n];
      1 + n
  }

  /** Length of the longest prefix without `)` (`[^\)]+` is greedy). */
  function NameRun(s: string): (n: nat)
    ensures n <= |s| && ')' !in s[..n]
    ensures n < |s| ==> s[n] == ')'
  {
    if |s| == 0 || s[0] == ')' then 0
    else
      var n := NameRun(s[1..]);
      assert s[..n + 1] == [s[0]] + s[1..][..n];
      1 + n
  }

  /** `(\d+)\(([^\)]+)\)` at the start of `s`: both captures and the text after the match. */
  function NumberAndName(s: string): Option<(string, string, string)>
  {
    var d := DigitRun(s);
    if d == 0 || d == |s| || s[d] != '(' then None
    else
      var t := s[d + 1..];
      var n := NameRun(t);
      if n == 0 || n == |t| then None
      else Some((s[..d], t[..n], t[n + 1..]))
  }

  lemma {:induction false} DigitRunOf(d: string, t: string)
    requires AllDigits(d)
    requires t == [] || !IsDigit(t[0])
    ensures DigitRun(d + t) == |d|
  {
    if |d| > 0 {
      assert (d + t)[1..] == d[1..] + t;
      DigitRunOf(d[1..], t);
    } else {
      assert d + t == t;
    }
  }

  lemma {:induction false} NameRunOf(n: string, t: string)
    requires ')' !in n
    requires t == [] || t[0] == ')'
    ensures NameRun(n + t) == |n|
  {
    if |n| > 0 {
      assert (n + t)[1..] == n[1..] + t;
      NameRunOf(n[1..], t);
    } else {
      assert n + t == t;
    }
  }

  /** Digits then `(`: the digit run stops at the `(`. */
  lemma NumberThenParen(d: string, u: string)
    requires d != [] && AllDigits(d)
    ensures var s := d + ("(" + u);
            DigitRun(s) == |d| && |d| < |s| && s[|d|] == '(' && s[..|d|] == d && s[|d| + 1..] == u
  {
    var s := d + ("(" + u);
    assert ("(" + u)[0] == '(' && !IsDigit('(');
    DigitRunOf(d, "(" + u);
    assert s[..|d|] == d;
    assert s[|d| + 1..] == u;
  }

  /** A name then `)`: the name run stops at the `)`. */
  lemma NameThenParen(n: string, rest: string)
    requires ')' !in n
    ensures var u := n + (")" + rest);
            NameRun(u) == |n| && |n| < |u| && u[..|n|] == n && u[|n| + 1..] == rest
  {
    NameRunOf(n, ")" + rest);
    var u := n + (")" + rest);
    assert u[..|n|] == n;
    assert u[|n| + 1..] == rest;
  }

  lemma RegroupFive(a: string, b: string, c: string, d: string, e: string)
    ensures a + b + c + d + e == a + (b + (c + (d + e)))
  {
  }

  /** Every text of the form digits `(` name `)` rest is matched, with those captures. */
  lemma NumberAndNameComplete(d: string, n: string, rest: string)
    requires d != [] && AllDigits(d)
    requires n != [] && ')' !in n
    ensures NumberAndName(d + "(" + n + ")" + rest) == Some((d, n, rest))
  {
    RegroupFive(d, "(", n, ")", rest);
    NumberThenParen(d, n + (")" + rest));
    NameThenParen(n, rest);
  }

  /** Only texts of that form are matched. */
  lemma NumberAndNameSound(s: string)
    requires NumberAndName(s).Some?
    ensures var (d, n, rest) := NumberAndName(s).value;
            && d != [] && AllDigits(d) && n != [] && ')' !in n
            && s == d + "(" + n + ")" + rest
  {
    var d := DigitRun(s);
    var t := s[d + 1..];
    var n := NameRun(t);
    assert s == s[..d] + "(" + t;
    assert t == t[..n] + ")" + t[n + 1..];
  }

  /** The captures of `^uid=(\d+)\(([^\)]+)\) gid=(\d+)\(([^\)]+)\) groups=(.*)$`. */
  datatype IdMatch = IdMatch(uid: string, name: string, gid: string, gname: string, groups: string)

  /** `(.*)$` without MULTILINE: the rest must be one line, one final newline allowed. */
  function RestOfLine(s: string): Option<string>
  {
    if '\n' !in s then Some(s)
    else if s[|s| - 1] == '\n' && '\n' !in s[..|s| - 1] then Some(s[..|s| - 1])
    else None
  }

  /** `re.search` of the `id` pattern, anchored at the start of the text. */
  function MatchId(s: string): Option<IdMatch>
  {
    if StartsWith(s, "uid=") then MatchFromUid(s[4..]) else None
  }

  /** The pattern after `uid=`. */
  function MatchFromUid(s: string): Option<IdMatch>
  {
    match NumberAndName(s)
    case None => None
    case Some((uid, name, r)) =>
      if !StartsWith(r, " gid=") then None
      else match MatchFromGid(r[5..])
        case None => None
        case Some((gid, gname, groups)) => Some(IdMatch(uid, name, gid, gname, groups))
  }

  /** The pattern after ` gid=`. */
  function MatchFromGid(s: string): Option<(string, string, string)>
  {
    match NumberAndName(s)
    case None => None
    case Some((gid, gname, r)) =>
      if !StartsWith(r, " groups=") then None
      else match RestOfLine(r[8..])
        case None => None
        case Some(groups) => Some((gid, gname, groups))
  }

  /** `digits(name)`. */
  function Part(digits: string, name: string): string
  {
    digits + "(" + name + ")"
  }

  /** The shape of every text the pattern matches, given its captures and line end. */
  function IdText(m: IdMatch, eol: string): string
  {
    "uid=" + (Part(m.uid, m.name) + (" gid=" + (Part(m.gid, m.gname) + (" groups=" + (m.groups + eol)))))
  }

  lemma PrefixOf(p: string, t: string)
    ensures StartsWith(p + t, p) && (p + t)[|p|..] == t
  {
    assert (p + t)[..|p|] == p;
  }

  lemma RestOfLineOf(groups: string, eol: string)
    requires '\n' !in groups && (eol == "" || eol == "\n")
    ensures RestOfLine(groups + eol) == Some(groups)
  {
    if eol == "\n" {
      assert (groups + eol)[..|groups|] == groups;
    } else {
      assert groups + eol == groups;
    }
  }

  /** Exactly the texts of that shape are matched: numbers non-empty
      digits, names non-empty without `)`, the group list a single line,
      with at most one newline after it. */
  lemma MatchIdComplete(m: IdMatch, eol: string)
    requires m.uid != [] && AllDigits(m.uid) && m.gid != [] && AllDigits(m.gid)
    requires m.name != [] && ')' !in m.name && m.gname != [] && ')' !in m.gname
    requires '\n' !in m.groups && (eol == "" || eol == "\n")
    ensures MatchId(IdText(m, eol)) == Some(m)
  {
    var r2 := " groups=" + (m.groups + eol);
    var r1 := " gid=" + (Part(m.gid, m.gname) + r2);
    var r0 := Part(m.uid, m.name) + r1;
    PrefixOf("uid=", r0);
    assert MatchId(IdText(m, eol)) == MatchFromUid(r0);
    NumberAndNameComplete(m.uid, m.name, r1);
    PrefixOf(" gid=", Part(m.gid, m.gname) + r2);
    MatchFromGidComplete(m.gid, m.gname, m.groups, eol);
    assert MatchFromGid(r1[5..]) == Some((m.gid, m.gname, m.groups));
  }

  lemma MatchFromGidComplete(gid: string, gname: string, groups: string, eol: string)
    requires gid != [] && AllDigits(gid) && gname != [] && ')' !in gname
    requires '\n' !in groups && (eol == "" || eol == "\n")
    ensures MatchFromGid(Part(gid, gname) + (" groups=" + (groups + eol))) == Some((gid, gname, groups))
  {
    var r2 := " groups=" + (groups + eol);
    NumberAndNameComplete(gid, gname, r2);
    PrefixOf(" groups=", groups + eol);
    RestOfLineOf(groups, eol);
  }

  lemma RestOfLineSound(rest: string)
    requires RestOfLine(rest).Some?
    ensures var groups := RestOfLine(rest).value;
            '\n' !in groups && (rest == groups + "" || rest == groups + "\n")
  {
    if '\n' in rest {
      assert rest == rest[..|rest| - 1] + "\n";
    } else {
      assert rest == rest + "";
    }
  }

  lemma MatchFromGidSound(s: string)
    requires MatchFromGid(s).Some?
    ensures var (gid, gname, groups) := MatchFromGid(s).value;
            && gid != [] && AllDigits(gid) && gname != [] && ')' !in gname && '\n' !in groups
            && (s == Part(gid, gname) + (" groups=" + (groups + "")) || s == Part(gid, gname) + (" groups=" + (groups + "\n")))
  {
    NumberAndNameSound(s);
    var (gid, gname, r) := NumberAndName(s).value;
    assert s == Part(gid, gname) + r;
    var rest := r[8..];
    assert r == " groups=" + rest by {
      assert r[..8] == " groups=";
    }
    RestOfLineSound(rest);
  }

  lemma MatchIdSound(s: string)
    requires MatchId(s).Some?
    ensures var m := MatchId(s).value;
            && m.uid != [] && AllDigits(m.uid) && m.gid != [] && AllDigits(m.gid)
            && m.name != [] && ')' !in m.name && m.gname != [] && ')' !in m.gname
            && '\n' !in m.groups
            && (s == IdText(m, "") || s == IdText(m, "\n"))
  {
    var t := s[4..];
    assert s == "uid=" + t by {
      assert s[..4] == "uid=";
    }
    MatchFromUidSound(t);
  }

  lemma MatchFromUidSound(t: string)
    requires MatchFromUid(t).Some?
    ensures var m := MatchFromUid(t).value;
            && m.uid != [] && AllDigits(m.uid) && m.gid != [] && AllDigits(m.gid)
            && m.name != [] && ')' !in m.name && m.gname != [] && ')' !in m.gname
            && '\n' !in m.groups
            && (t == Part(m.uid, m.name) + (" gid=" + (Part(m.gid, m.gname) + (" groups=" + (m.groups + "")))) ||
                t == Part(m.uid, m.name) + (" gid=" + (Part(m.gid, m.gname) + (" groups=" + (m.groups + "\n")))))
  {
    NumberAndNameSound(t);
    var (uid, name, r) := NumberAndName(t).value;
    assert t == Part(uid, name) + r;
    var rest := r[5..];
    assert r == " gid=" + rest by {
      assert r[..5] == " gid=";
    }
    MatchFromGidSound(rest);
  }

  /** `^(\d+)\(([^)]+)\)$` on one comma-separated piece of the group list. */
  function OtherOf(piece: string): Option<OtherGroup>
  {
    match NumberAndName(piece)
    case None => None
    case Some((gid, gname, rest)) =>
      if rest == "" || rest == "\n" then Some(OtherGroup(gid, gname)) else None
  }

  /** The secondary groups the pieces describe; pieces that do not match are skipped. */
  function OthersOf(pieces: seq<string>): seq<OtherGroup>
  {
    if |pieces| == 0 then []
    else
      var last := OtherOf(pieces[|pieces| - 1]);
      OthersOf(pieces[..|pieces| - 1]) + (if last.Some? then [last.value] else [])
  }

  /** The loop of `get_user_data` that appends each matching piece. */
  method SecondaryGroups(pieces: seq<string>) returns (others: seq<OtherGroup>)
    ensures others == OthersOf(pieces)
  {
    others := [];
    var i := 0;
    while i < |pieces|
      invariant 0 <= i <= |pieces|
      invariant others == OthersOf(pieces[..i])
    {
      assert pieces[..i + 1][..i] == pieces[..i];
      var m := OtherOf(pieces[i]);
      if m.Some? {
        others := others + [m.value];
      }
      i := i + 1;
    }
    assert pieces[..|pieces|] == pieces;
  }

  /** What `get_user_data(user)` returns for the `id` output `out`:
      an error for an empty account name or an empty group list, nothing
      (`None`) when the line does not match, else the identity. */
  function UserData(user: string, out: string): (r: Result<Option<Identity>>)
    ensures r == Err(InvalidUser) <==> user == ""
    ensures user != "" ==> (r == Ok(None) <==> MatchId(out).None?)
    ensures r == Err(ParseError) <==> user != "" && MatchId(out).Some? && MatchId(out).value.groups == ""
    ensures r.Err? ==> r.error == InvalidUser || r.error == ParseError
    ensures r.Ok? && r.value.Some? ==>
              && r.value.value.uid >= 0 && r.value.value.gid >= 0
              && r.value.value.name != "" && ')' !in r.value.value.name
              && r.value.value.gname != "" && ')' !in r.value.value.gname
  {
    if user == "" then Err(InvalidUser)
    else match MatchId(out)
      case None => Ok(None)
      case Some(m) =>
        MatchIdSound(out);
        if m.groups == "" then Err(ParseError)
        else Ok(Some(Identity(DigitsValue(m.uid), m.name, DigitsValue(m.gid), m.gname,
                              OthersOf(Split(m.groups, ',')))))
  }

  /** `get_user_data`. */
  method GetUserData(user: string, out: string) returns (r: Result<Option<Identity>>)
    ensures r == UserData(user, out)
  {
    if user == "" {
      return Err(InvalidUser);
    }
    var m := MatchId(out);
    if m.None? {
      return Ok(None);
    }
    MatchIdSound(out);
    if m.value.groups == "" {
      return Err(ParseError);
    }
    var others := SecondaryGroups(Split(m.value.groups, ','));
    return Ok(Some(Identity(DigitsValue(m.value.uid), m.value.name, DigitsValue(m.value.gid),
                            m.value.gname, others)));
  }

  function RenderOther(o: OtherGroup): string
  {
    o.gid + "(" + o.gname + ")"
  }

  function RenderOthers(others: seq<OtherGroup>): (pieces: seq<string>)
    ensures |pieces| == |others|
    ensures forall i :: 0 <= i < |others| ==> pieces[i] == RenderOther(others[i])
  {
    if |others| == 0 then [] else RenderOthers(others[..|others| - 1]) + [RenderOther(others[|others| - 1])]
  }

  /** The line `id` prints for an identity. */
  function RenderId(id: Identity): string
    requires id.uid >= 0 && id.gid >= 0
  {
    IdText(IdMatch(IntToString(id.uid), id.name, IntToString(id.gid), id.gname,
                   Join(RenderOthers(id.others), ',')), "\n")
  }

  /** A secondary group `id` can print and read back. */
  predicate PrintableOther(o: OtherGroup)
  {
    o.gid != [] && AllDigits(o.gid) && o.gname != [] && ')' !in o.gname && ',' !in o.gname && '\n' !in o.gname
  }

  lemma OtherRoundTrip(o: OtherGroup)
    requires PrintableOther(o)
    ensures OtherOf(RenderOther(o)) == Some(o)
  {
    NumberAndNameComplete(o.gid, o.gname, "");
    assert RenderOther(o) == o.gid + "(" + o.gname + ")" + "";
  }

  /** Appending a piece appends what it describes, if anything. */
  lemma OthersOfSnoc(init: seq<string>, piece: string)
    ensures OthersOf(init + [piece])
            == OthersOf(init) + if OtherOf(piece).Some? then [OtherOf(piece).value] else []
  {
    var pieces := init + [piece];
    assert pieces[..|pieces| - 1] == init;
    assert pieces[|pieces| - 1] == piece;
  }

  lemma {:induction false} OthersRoundTrip(others: seq<OtherGroup>)
    requires forall i :: 0 <= i < |others| ==> PrintableOther(others[i])
    ensures OthersOf(RenderOthers(others)) == others
  {
    if |others| > 0 {
      var init := others[..|others| - 1];
      var o := others[|others| - 1];
      assert RenderOthers(others) == RenderOthers(init) + [RenderOther(o)];
      OthersOfSnoc(RenderOthers(init), RenderOther(o));
      assert forall i :: 0 <= i < |init| ==> PrintableOther(init[i]) by {
        forall i | 0 <= i < |init| ensures PrintableOther(init[i]) {
          assert init[i] == others[i];
        }
      }
      OthersRoundTrip(init);
      OtherRoundTrip(o);
      SplitLast(others);
    }
  }

  /** A printable secondary group prints without a comma or a newline. */
  lemma OtherPlain(o: OtherGroup)
    requires PrintableOther(o)
    ensures ',' !in RenderOther(o) && '\n' !in RenderOther(o)
  {
    assert ',' !in o.gid && '\n' !in o.gid by {
      assert !IsDigit(',') && !IsDigit('\n');
    }
  }

  lemma PiecesPlain(others: seq<OtherGroup>)
    requires forall i :: 0 <= i < |others| ==> PrintableOther(others[i])
    ensures forall i :: 0 <= i < |others| ==> ',' !in RenderOthers(others)[i] && '\n' !in RenderOthers(others)[i]
  {
    forall i | 0 <= i < |others|
      ensures ',' !in RenderOthers(others)[i] && '\n' !in RenderOthers(others)[i]
    {
      OtherPlain(others[i]);
    }
  }

  lemma {:induction false} JoinPlain(parts: seq<string>, sep: char, c: char)
    requires c != sep
    requires forall i :: 0 <= i < |parts| ==> c !in parts[i]
    ensures c !in Join(parts, sep)
  {
    if |parts| > 1 {
      JoinPlain(parts[1..], sep, c);
    }
  }

  /** The `id` line of an identity reads back as that identity: numbers
      non-negative, names non-empty without `)`, at least one printable
      secondary group. */
  lemma UserDataRoundTrip(user: string, id: Identity)
    requires user != ""
    requires id.uid >= 0 && id.gid >= 0
    requires id.name != [] && ')' !in id.name && id.gname != [] && ')' !in id.gname
    requires id.others != []
    requires forall i :: 0 <= i < |id.others| ==> PrintableOther(id.others[i])
    ensures UserData(user, RenderId(id)) == Ok(Some(id))
  {
    var pieces := RenderOthers(id.others);
    var groups := Join(pieces, ',');
    PiecesPlain(id.others);
    JoinPlain(pieces, ',', '\n');
    var m := IdMatch(IntToString(id.uid), id.name, IntToString(id.gid), id.gname, groups);
    assert RenderId(id) == IdText(m, "\n");
    assert AllDigits(m.uid) && AllDigits(m.gid) by {
      assert m.uid == NatToString(id.uid) && m.gid == NatToString(id.gid);
    }
    MatchIdComplete(m, "\n");
    assert groups != "" by {
      assert |pieces| > 0 && |pieces[0]| > 0;
      if |pieces| > 1 { assert |groups| >= |pieces[0]|; }
    }
    SplitJoin(pieces, ',');
    OthersRoundTrip(id.others);
    NatToStringValue(id.uid);
    NatToStringValue(id.gid);
  }

  /** One entry of the home-directory listing. */
  datatype DirEntry = DirEntry(name: string, isDir: bool)

  /** An account and what `get_user_data` returned for it (`None` when the `id` line did not match). */
  datatype Account = Account(name: string, id: Option<Identity>)

  predicate Known(accounts: seq<Account>, name: string)
  {
    exists i :: 0 <= i < |accounts| && accounts[i].name == name
  }

  ghost predicate DistinctNames(accounts: seq<Account>)
  {
    forall i, j :: 0 <= i < j < |accounts| ==> accounts[i].name != accounts[j].name
  }

  /** `setdefault(name, id)` on the accounts: a new name is added at the
      end, a known one keeps its account. */
  function SetDefault(acc: seq<Account>, name: string, id: Option<Identity>): (r: seq<Account>)
    ensures forall n :: Known(r, n) <==> Known(acc, n) || n == name
    ensures |acc| <= |r| && r[..|acc|] == acc
    ensures forall i :: |acc| <= i < |r| ==> r[i] == Account(name, id)
    ensures DistinctNames(acc) ==> DistinctNames(r)
  {
    if Known(acc, name) then acc
    else
      var r := acc + [Account(name, id)];
      assert forall n :: Known(acc, n) ==> Known(r, n) by {
        forall n | Known(acc, n) ensures Known(r, n) {
          var i :| 0 <= i < |acc| && acc[i].name == n;
          assert r[i].name == n;
        }
      }
      assert Known(r, name) by {
        assert r[|acc|].name == name;
      }
      r
  }

  /** What `setdefault` is handed for one directory entry: the lookup of
      its name, which rejects an empty name before running `id`, and fails
      when `id` fails (here: when the name has no output in `idOut`). */
  function Lookup(e: DirEntry, idOut: map<string, string>): (r: Result<Option<Identity>>)
    ensures r.Ok? ==> e.name != "" && e.name in idOut && UserData(e.name, idOut[e.name]) == r
    ensures e.name == "" ==> r == Err(InvalidUser)
    ensures e.name != "" && e.name !in idOut ==> r == Err(ExecutionError)
  {
    if e.name == "" then Err(InvalidUser)
    else if e.name !in idOut then Err(ExecutionError)
    else UserData(e.name, idOut[e.name])
  }

  /** `get_users_groups` from the listing on: every directory's account is
      resolved through `id` (its output looked up in `idOut`; a missing one
      is a failed command), and `setdefault` keeps the first account of a
      name. */
  function UsersGroupsFrom(listing: seq<DirEntry>, idOut: map<string, string>, acc: seq<Account>)
    : (r: Result<seq<Account>>)
    requires DistinctNames(acc)
    ensures r.Ok? ==> DistinctNames(r.value)
    ensures r.Ok? ==> forall i :: 0 <= i < |r.value| ==>
              r.value[i] in acc
              || (&& r.value[i].name in idOut
                  && UserData(r.value[i].name, idOut[r.value[i].name]) == Ok(r.value[i].id)
                  && exists k :: 0 <= k < |listing| && listing[k] == DirEntry(r.value[i].name, true))
    decreases |listing|
  {
    if |listing| == 0 then Ok(acc)
    else
      var e := listing[0];
      if !e.isDir then UsersGroupsFrom(listing[1..], idOut, acc)
      else match Lookup(e, idOut)
        case Err(err) => Err(err)
        case Ok(id) =>
          var acc' := SetDefault(acc, e.name, id);
          var r := UsersGroupsFrom(listing[1..], idOut, acc');
          assert forall a :: a in acc' ==> a in acc || a == Account(e.name, id) by {
            forall a | a in acc' ensures a in acc || a == Account(e.name, id) {
              var i :| 0 <= i < |acc'| && acc'[i] == a;
              if i < |acc| {
                assert acc'[..|acc|][i] == a;
              }
            }
          }
          r
  }

  /** Every directory of the listing has a successful lookup. */
  predicate Resolvable(listing: seq<DirEntry>, idOut: map<string, string>)
  {
    forall k :: 0 <= k < |listing| && listing[k].isDir ==> Lookup(listing[k], idOut).Ok?
  }

  /** The `k`-th entry is the first directory whose lookup fails. */
  predicate FirstFailure(listing: seq<DirEntry>, idOut: map<string, string>, k: int)
  {
    && 0 <= k < |listing| && listing[k].isDir && Lookup(listing[k], idOut).Err?
    && forall j :: 0 <= j < k && listing[j].isDir ==> Lookup(listing[j], idOut).Ok?
  }

  lemma ResolvableCons(listing: seq<DirEntry>, idOut: map<string, string>)
    requires |listing| > 0
    ensures Resolvable(listing, idOut)
            <==> (listing[0].isDir ==> Lookup(listing[0], idOut).Ok?) && Resolvable(listing[1..], idOut)
  {
    var tail := listing[1..];
    if Resolvable(listing, idOut) {
      forall k | 0 <= k < |tail| && tail[k].isDir ensures Lookup(tail[k], idOut).Ok? {
        assert tail[k] == listing[k + 1];
      }
    }
    if (listing[0].isDir ==> Lookup(listing[0], idOut).Ok?) && Resolvable(tail, idOut) {
      forall k | 0 <= k < |listing| && listing[k].isDir ensures Lookup(listing[k], idOut).Ok? {
        if k > 0 {
          assert listing[k] == tail[k - 1];
        }
      }
    }
  }

  lemma FirstFailureCons(listing: seq<DirEntry>, idOut: map<string, string>, k: int)
    requires |listing| > 0 && FirstFailure(listing[1..], idOut, k)
    requires listing[0].isDir ==> Lookup(listing[0], idOut).Ok?
    ensures FirstFailure(listing, idOut, k + 1) && listing[k + 1] == listing[1..][k]
  {
    forall j | 0 <= j < k + 1 && listing[j].isDir ensures Lookup(listing[j], idOut).Ok? {
      if j > 0 {
        assert listing[j] == listing[1..][j - 1];
      }
    }
  }

  /** Every directory entry is looked up, even one whose name is already
      known, so the listing is read through exactly when every lookup
      succeeds, and otherwise fails with the first failing lookup. */
  lemma {:induction false} UsersGroupsFromOk(listing: seq<DirEntry>, idOut: map<string, string>, acc: seq<Account>)
    requires DistinctNames(acc)
    ensures UsersGroupsFrom(listing, idOut, acc).Ok? <==> Resolvable(listing, idOut)
    ensures UsersGroupsFrom(listing, idOut, acc).Err? ==>
              exists k :: && FirstFailure(listing, idOut, k)
                          && Lookup(listing[k], idOut) == Err(UsersGroupsFrom(listing, idOut, acc).error)
    decreases |listing|
  {
    if |listing| > 0 {
      var e := listing[0];
      var r := UsersGroupsFrom(listing, idOut, acc);
      ResolvableCons(listing, idOut);
      if !e.isDir || Lookup(e, idOut).Ok? {
        var acc' := if !e.isDir then acc else SetDefault(acc, e.name, Lookup(e, idOut).value);
        assert r == UsersGroupsFrom(listing[1..], idOut, acc');
        UsersGroupsFromOk(listing[1..], idOut, acc');
        if r.Err? {
          var k :| FirstFailure(listing[1..], idOut, k) && Lookup(listing[1..][k], idOut) == Err(r.error);
          FirstFailureCons(listing, idOut, k);
        }
      } else {
        assert FirstFailure(listing, idOut, 0);
      }
    }
  }

  /** A successful read keeps the accounts it started from, in front, and
      knows a name exactly when it was known before or names a directory
      of the listing. */
  lemma {:induction false} UsersGroupsFromComplete(listing: seq<DirEntry>, idOut: map<string, string>, acc: seq<Account>)
    requires DistinctNames(acc)
    requires UsersGroupsFrom(listing, idOut, acc).Ok?
    ensures |acc| <= |UsersGroupsFrom(listing, idOut, acc).value|
    ensures UsersGroupsFrom(listing, idOut, acc).value[..|acc|] == acc
    ensures forall n :: Known(UsersGroupsFrom(listing, idOut, acc).value, n)
                        <==> Known(acc, n) || DirEntry(n, true) in listing
    decreases |listing|
  {
    if |listing| > 0 {
      var e := listing[0];
      var r := UsersGroupsFrom(listing, idOut, acc);
      assert forall d :: d in listing <==> d == e || d in listing[1..] by {
        assert listing == [e] + listing[1..];
      }
      if !e.isDir {
        UsersGroupsFromComplete(listing[1..], idOut, acc);
      } else {
        var acc' := SetDefault(acc, e.name, Lookup(e, idOut).value);
        assert r == UsersGroupsFrom(listing[1..], idOut, acc');
        UsersGroupsFromComplete(listing[1..], idOut, acc');
        assert acc'[..|acc|] == acc;
      }
    }
  }

  /** `get_users_groups`: the resolved accounts of the home directories, in
      listing order of their first appearance. */
  function UsersGroups(listing: seq<DirEntry>, idOut: map<string, string>): (r: Result<seq<Account>>)
    ensures r.Ok? <==> Resolvable(listing, idOut)
    ensures r.Err? ==> exists k :: FirstFailure(listing, idOut, k) && Lookup(listing[k], idOut) == Err(r.error)
    ensures r.Ok? ==> DistinctNames(r.value)
    ensures r.Ok? ==> forall n :: Known(r.value, n) <==> DirEntry(n, true) in listing
    ensures r.Ok? ==> forall i :: 0 <= i < |r.value| ==>
              Lookup(DirEntry(r.value[i].name, true), idOut) == Ok(r.value[i].id)
  {
    UsersGroupsFromOk(listing, idOut, []);
    var r := UsersGroupsFrom(listing, idOut, []);
    if r.Ok? then UsersGroupsFromComplete(listing, idOut, []); r else r
  }

  /** The names an identity counts as a member of: its user name (a
      pseudo-group), its primary group and its secondary groups. */
  function GroupNames(id: Identity): set<string>
  {
    {id.name, id.gname} + set o | o in id.others :: o.gname
  }

  predicate AllResolved(accounts: seq<Account>)
  {
    forall i :: 0 <= i < |accounts| ==> accounts[i].id.Some?
  }

  /** The accounts listed under `category`, in account order. */
  function Members(accounts: seq<Account>, category: Category): seq<string>
    requires AllResolved(accounts)
  {
    if |accounts| == 0 then []
    else
      var last := accounts[|accounts| - 1];
      Members(accounts[..|accounts| - 1], category)
        + (if Name(category) in GroupNames(last.id.value) then [last.name] else [])
  }

  const Categories := [DomainUsers, Teachers, Students]

  /** The position of a category in `Categories`. */
  function Position(c: Category): (k: nat)
    ensures k < |Categories| && Categories[k] == c
  {
    match c
    case DomainUsers => 0
    case Teachers => 1
    case Students => 2
  }

  /** A category's list once an account has been seen: the list so far
      (none yet is an empty one), with the account appended when it belongs. */
  function Enrolled(userlist: map<Category, seq<string>>, name: string, all: set<string>, c: Category): seq<string>
  {
    (if c in userlist then userlist[c] else []) + (if Name(c) in all then [name] else [])
  }

  /** The inner loop's invariant after the first `k` categories: those
      have their lists, enrolled; every other list is as it was. */
  ghost predicate EnrolledUpTo(userlist: map<Category, seq<string>>, name: string, all: set<string>,
                               k: nat, updated: map<Category, seq<string>>)
  {
    && (forall c :: c in updated <==> c in userlist || Position(c) < k)
    && (forall c :: c in updated ==>
          updated[c] == if Position(c) < k then Enrolled(userlist, name, all, c) else userlist[c])
  }

  /** One category visited: its list created if missing, then the account appended if it belongs. */
  ghost function Visit(before: map<Category, seq<string>>, c: Category, name: string, all: set<string>)
    : map<Category, seq<string>>
  {
    var made := if c !in before then before[c := []] else before;
    if Name(c) in all then made[c := made[c] + [name]] else made
  }

  lemma EnrollVisit(userlist: map<Category, seq<string>>, name: string, all: set<string>, k: nat,
                    before: map<Category, seq<string>>, after: map<Category, seq<string>>)
    requires k < |Categories|
    requires EnrolledUpTo(userlist, name, all, k, before)
    requires after == Visit(before, Categories[k], name, all)
    ensures EnrolledUpTo(userlist, name, all, k + 1, after)
  {
    var v := Categories[k];
    assert Position(v) == k by {
      assert Categories[Position(v)] == v;
    }
    assert v in before <==> v in userlist;
    var list := if v in userlist then userlist[v] else [];
    assert v in after && after[v] == list + (if Name(v) in all then [name] else []);
    forall c | c != v
      ensures (c in after <==> c in before) && (c in after ==> after[c] == before[c])
      ensures Position(c) != k
    {
      assert Categories[Position(c)] == c;
    }
  }

  lemma EnrollDone(userlist: map<Category, seq<string>>, name: string, all: set<string>,
                   updated: map<Category, seq<string>>)
    requires EnrolledUpTo(userlist, name, all, |Categories|, updated)
    ensures updated.Keys == {DomainUsers, Teachers, Students}
    ensures forall c :: c in updated ==> updated[c] == Enrolled(userlist, name, all, c)
  {
    forall c ensures c in updated <==> c in {DomainUsers, Teachers, Students} {
      match c
      case DomainUsers =>
      case Teachers =>
      case Students =>
    }
  }

  /** The inner loop of `get_domain_users` for one account: each category
      gets a list if it has none, and the account is appended to the
      lists of the categories it belongs to. */
  method Enroll(userlist: map<Category, seq<string>>, name: string, all: set<string>)
    returns (updated: map<Category, seq<string>>)
    ensures updated.Keys == {DomainUsers, Teachers, Students}
    ensures forall c :: c in updated ==>
              updated[c] == (if c in userlist then userlist[c] else []) + (if Name(c) in all then [name] else [])
  {
    updated := userlist;
    var k := 0;
    while k < |Categories|
      invariant 0 <= k <= |Categories|
      invariant EnrolledUpTo(userlist, name, all, k, updated)
    {
      var c := Categories[k];
      ghost var before := updated;
      if c !in updated {
        updated := updated[c := []];
      }
      if Name(c) in all {
        updated := updated[c := updated[c] + [name]];
      }
      EnrollVisit(userlist, name, all, k, before, updated);
      k := k + 1;
    }
    EnrollDone(userlist, name, all, updated);
  }

  /** What `get_domain_users` returns for the resolved accounts: nothing
      when there are none, else each category's members. */
  function Classification(accounts: seq<Account>): Result<map<Category, seq<string>>>
  {
    if !AllResolved(accounts) then Err(MissingEntry)
    else if |accounts| == 0 then Ok(map[])
    else Ok(map[DomainUsers := Members(accounts, DomainUsers),
                Teachers := Members(accounts, Teachers),
                Students := Members(accounts, Students)])
  }

  /** `get_domain_users`: for each account, in order, and each of the three
      categories, create the category's list if missing and append the
      account when it belongs. An unresolved account (`None`) fails; no
      accounts at all leaves the map empty. */
  method GetDomainUsers(accounts: seq<Account>) returns (r: Result<map<Category, seq<string>>>)
    ensures r.Err? <==> !AllResolved(accounts)
    ensures r.Ok? ==> r.value.Keys == if |accounts| == 0 then {} else {DomainUsers, Teachers, Students}
    ensures r.Ok? ==> forall c :: c in r.value ==> r.value[c] == Members(accounts, c)
    ensures r == Classification(accounts)
  {
    var userlist: map<Category, seq<string>> := map[];
    var i := 0;
    while i < |accounts|
      invariant 0 <= i <= |accounts|
      invariant AllResolved(accounts[..i])
      invariant userlist.Keys == if i == 0 then {} else {DomainUsers, Teachers, Students}
      invariant forall c :: c in userlist ==> userlist[c] == Members(accounts[..i], c)
    {
      var account := accounts[i];
      if account.id.None? {
        return Err(MissingEntry);
      }
      assert accounts[..i + 1][..i] == accounts[..i];
      assert AllResolved(accounts[..i + 1]);
      var all := GroupNames(account.id.value);
      ghost var before := userlist;
      userlist := Enroll(userlist, account.name, all);
      EnrollStep(accounts, i, before, userlist);
      i := i + 1;
    }
    assert accounts[..i] == accounts;
    if i > 0 {
      ClassificationOf(accounts, userlist);
    }
    return Ok(userlist);
  }

  lemma ClassificationOf(accounts: seq<Account>, userlist: map<Category, seq<string>>)
    requires AllResolved(accounts) && |accounts| > 0
    requires userlist.Keys == {DomainUsers, Teachers, Students}
    requires forall c :: c in userlist ==> userlist[c] == Members(accounts, c)
    ensures Classification(accounts) == Ok(userlist)
  {
    ThreeKeys(userlist, Members(accounts, DomainUsers), Members(accounts, Teachers), Members(accounts, Students));
  }

  /** A map over the three categories is the display of its three values. */
  lemma ThreeKeys<V>(m: map<Category, V>, d: V, t: V, s: V)
    requires m.Keys == {DomainUsers, Teachers, Students}
    requires m[DomainUsers] == d && m[Teachers] == t && m[Students] == s
    ensures m == map[DomainUsers := d, Teachers := t, Students := s]
  {
    var n := map[DomainUsers := d, Teachers := t, Students := s];
    forall c | c in m
      ensures c in n && m[c] == n[c]
    {
      match c
      case DomainUsers =>
      case Teachers =>
      case Students =>
    }
  }

  /** One round of the outer loop keeps each list equal to the members
      among the accounts seen so far. */
  lemma EnrollStep(accounts: seq<Account>, i: nat, before: map<Category, seq<string>>,
                   after: map<Category, seq<string>>)
    requires i < |accounts| && AllResolved(accounts[..i + 1])
    requires i > 0 ==> before.Keys == {DomainUsers, Teachers, Students}
    requires forall c :: c in before ==> before[c] == Members(accounts[..i], c)
    requires forall c :: c in after ==>
               after[c] == (if c in before then before[c] else [])
                           + (if Name(c) in GroupNames(accounts[i].id.value) then [accounts[i].name] else [])
    ensures forall c :: c in after ==> after[c] == Members(accounts[..i + 1], c)
  {
    MembersStep(accounts, i);
    forall c | c in after
      ensures after[c] == Members(accounts[..i + 1], c)
    {
      if i == 0 {
        assert accounts[..i] == [];
      } else {
        assert c in before by {
          match c
          case DomainUsers =>
          case Teachers =>
          case Students =>
        }
      }
    }
  }

  lemma MembersStep(accounts: seq<Account>, i: nat)
    requires i < |accounts| && AllResolved(accounts[..i + 1])
    ensures AllResolved(accounts[..i])
    ensures forall c :: Members(accounts[..i + 1], c)
                        == Members(accounts[..i], c) + (if Name(c) in GroupNames(accounts[i].id.value) then [accounts[i].name] else [])
  {
    assert accounts[..i + 1][..i] == accounts[..i];
  }

  /** An account is listed under a category exactly when the category is
      its user name, its primary group or one of its secondary groups. */
  lemma {:induction false} MembersIff(accounts: seq<Account>, category: Category, a: string)
    requires AllResolved(accounts)
    ensures a in Members(accounts, category)
            <==> exists i :: 0 <= i < |accounts| && accounts[i].name == a
                   && var id := accounts[i].id.value;
                      (Name(category) == id.name || Name(category) == id.gname
                       || exists o :: o in id.others && o.gname == Name(category))
  {
    if |accounts| > 0 {
      var init := accounts[..|accounts| - 1];
      assert AllResolved(init);
      MembersIff(init, category, a);
      assert forall i :: 0 <= i < |init| ==> init[i] == accounts[i];
      var id := accounts[|accounts| - 1].id.value;
      assert Name(category) in GroupNames(id)
             <==> (Name(category) == id.name || Name(category) == id.gname
                   || exists o :: o in id.others && o.gname == Name(category));
    }
  }

  /** Every listed account is one of the accounts. */
  lemma {:induction false} MembersFrom(accounts: seq<Account>, category: Category)
    requires AllResolved(accounts)
    ensures forall m :: m in Members(accounts, category) ==>
              exists i :: 0 <= i < |accounts| && accounts[i].name == m
  {
    if |accounts| > 0 {
      var init := accounts[..|accounts| - 1];
      MembersFrom(init, category);
      assert forall i :: 0 <= i < |init| ==> init[i] == accounts[i];
    }
  }

  /** With distinct account names, no account is listed twice under a category. */
  lemma {:induction false} MembersOnce(accounts: seq<Account>, category: Category)
    requires AllResolved(accounts)
    requires DistinctNames(accounts)
    ensures var ms := Members(accounts, category);
            forall i, j :: 0 <= i < j < |ms| ==> ms[i] != ms[j]
  {
    if |accounts| > 0 {
      var init := accounts[..|accounts| - 1];
      var last := accounts[|accounts| - 1];
      MembersOnce(init, category);
      MembersFrom(init, category);
      assert forall i, j :: 0 <= i < j < |Members(init, category)| ==> Members(init, category)[i] != Members(init, category)[j];
      assert forall i :: 0 <= i < |init| ==> init[i] == accounts[i] && init[i].name != last.name;
      var m0 := Members(init, category);
      assert last.name !in m0;
      var ms := Members(accounts, category);
      if Name(category) in GroupNames(last.id.value) {
        assert ms == m0 + [last.name];
        assert forall i :: 0 <= i < |m0| ==> ms[i] == m0[i];
      } else {
        assert ms == m0;
      }
    }
  }
}
