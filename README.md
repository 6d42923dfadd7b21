# kuota quota engine in Dafny

This is a model of the engine in `quotas.py` that keeps a shared root
filesystem from filling up. The engine works in four steps:

1. It reads the quota reports (`repquota -O csv -u|-g /`), the capacity
   (`df --output=used,avail /`) and each home directory's identity (`id <name>`).
2. It classifies the accounts into Domain Users, teachers and students.
3. It derives the Domain Users group cap (`quota_domains`) and the signed
   room left to its members (`current_available_domain_users_remaning`).
4. It issues `setquota` calls: one to reconcile the group cap, and, when
   room runs out, the ones that clamp users to their usage. Privileged
   users (teachers and students) get a grace of 5 * 1024 blocks above
   their usage when the disk is heavily loaded. At shutdown every quota
   is cleared.

Module layout, one module per file:

- `Base`: `Option`, `Result`, and the `Error` causes the engine raises.
- `Text`: Python's `str.split(sep)`, `str.join`, `str.split()`, `int()`
  and `str()` on integers.
- `Repquota`: `get_repquota` and `get_exausted_quota`.
- `Capacity`: `get_df`.
- `Accounts`: `get_user_data` (a hand-written matcher for its regular
  expressions), `get_users_groups` and `get_domain_users`.
- `Sizes`: `calculate_sizes`.
- `Enforcer`: `apply_quota`, `apply_calculated_quota_group`,
  `apply_calculated_quota_users`, `reset_quota` and `reset_all_quotas`.
- `CommandCache`: `execute` and its time-limited cache, as a class with
  a map field.

How the model stands in for what it cannot see:

- **External commands.** Their outputs are parameters: report and `df`
  texts, a map from account name to `id` output, and the directory
  listing.
- **Exceptions.** Each exception is an `Error` in a `Result`. A pass that
  may already have issued commands when it fails returns an `Outcome`:
  the commands issued so far, and the error.
- **`setquota`.** A pass produces the `setquota` commands it issues as
  `Command` values. `Argv` renders a command as the exact argument
  vector.
- **Effect on the filesystem.** The effect of the commands on a later
  read of the report is an explicit assumption, `AfterCommands`: a
  command sets the hard limit of the named entry of its kind, and usage
  does not move. Convergence is stated against that assumption:
  - the group cap settles;
  - a heavily loaded pass leaves every non-privileged account at its
    usage and every privileged one at usage plus the grace;
  - a second pass issues nothing;
  - a full reset leaves every limit at 0.

Quirks of the code, all of which the model keeps:

- **Ordered dicts.** A Python dict is modelled as `Report`: names in
  insertion order plus a map. When a name repeats, the last row wins and
  the name keeps its first place.
- **Skipped lines.** Blank report lines are skipped. Only the first line
  of each output is dropped as a header.
- **Empty group list.** An `id` line whose `groups=` capture is empty
  fails to parse, because empty captures are filtered out and fewer than
  five remain.
- **Unmatched `id` line.** A line that does not match gives `None`, and
  `get_domain_users` then fails on that account.
- **No home directories.** With no accounts the classification is an
  empty dict. `apply_calculated_quota_users` then fails with a type
  error (`None + None`). Nothing in `take_care_system` catches it
  (`quotas.py:312-316`), so the first such error ends the service, and
  the final `reset_all_quotas` (`quotas.py:320`) never runs.
- **Twice-privileged account.** An account that is both a teacher and a
  student is listed twice among the privileged. Under pressure the pass
  hands the same command to `apply_quota` twice (`Enforcer.TwiceListed`).
  Through the cache, the second call finds the first one's fresh slot
  and is served its output without running (`CommandCache.RepeatWithinWindow`),
  so `setquota` runs once unless ten seconds pass between the two.
- **Empty target.** A target of `""` is falsy and means "all", as does
  no target.
- **Unclamped figures.** `quota_domains` and the remaining room are not
  clamped and can be negative.
- **Cache placeholder.** On its first call for a command, the cache
  inserts a placeholder `(time 0, None)`. The placeholder stays when the
  command then fails. It is only "fresh" in the first ten seconds of
  the clock.
- **Cache keys.** The cache key is the space-joined argument vector, so
  distinct vectors can share a key.

Only the constant's name (`grace_mebibyte`) says what the grace is for.
The code adds it to the privileged accounts when the disk is heavily
loaded (`quotas.py:253-257`). When it is not, the code adds it to the
non-privileged accounts and leaves the privileged ones alone
(`quotas.py:258-263`). The model follows the code.

## Model

| member | source | states |
|---|---|---|
| Text.Words | quotas.py:110 | `str.split()`: every word it gives is non-empty and holds no whitespace |
| Text.WordsEmpty | quotas.py:109-110 | a line gives no words exactly when it is all whitespace |
| Text.WordsFirst | quotas.py:110 | after any leading whitespace, a word followed by whitespace is the first word, and the words of the rest follow it |
| Text.TwoWords | quotas.py:110-111 | a line of two whitespace-separated words, after any indentation, splits into exactly those two words |
| Text.WordsJoin | quotas.py:110 | non-empty words without whitespace, joined by a whitespace character, split back into the same words |
| Text.ParseShow | quotas.py:35 | the decimal rendering of every integer (`str`) reads back (`int`) to the same integer |
| Text.IntToStringInjective | quotas.py:35 | distinct integers render as distinct argument strings |
| Repquota.KindOf | quotas.py:60-61 | a kind is accepted exactly when it is "u" or "g", and "u" is the user table |
| Repquota.ParseLines | quotas.py:77-82 | the parsed dict is well formed: names distinct, and a key is present exactly when it is among the names |
| Repquota.GetRepquota | quotas.py:59-82 | the loop computes the report: kind checked, first line dropped, non-blank rows added one by one |
| Repquota.HeaderDropped | quotas.py:74-75 | exactly the first line is ignored, whatever it holds |
| Repquota.ParseRenderedRow | quotas.py:80-81 | an 11-field row with comma-free text fields reads back as its name, an over-limit flag set exactly when the block status is not "ok", its block usage and its block hard limit |
| Repquota.ParseLinesOk | quotas.py:78-81 | the report parses exactly when every non-blank line has 11 fields with integer usage and hard limit |
| Repquota.ParseLinesNames | quotas.py:78-81 | the report's keys are exactly the names of its rows |
| Repquota.ParseLinesKeeps | quotas.py:81 | an entry no later row names survives unchanged |
| Repquota.ParseLinesLastWins | quotas.py:81 | when a name repeats, the last row naming it gives its record |
| Repquota.OverLimitNames | quotas.py:279 | a name is listed exactly when it is reported with its over-limit flag set; the list keeps the report's order |
| Repquota.GetExhaustedQuota | quotas.py:265-285 | report errors propagate; a non-empty target gets its own flag, or exactly an invalid-target error when unreported; no target or "" gets exactly the flagged names, in report order |
| Capacity.GetDf | quotas.py:93-113 | fails only with a value or index error, the index error only for a second line of fewer than two words; on success the first two words of the second line read as the usage and the available space |
| Capacity.NoDataRow | quotas.py:106-113 | a `df` output with no data line, or an empty one, is rejected with a value error |
| Capacity.ReadBack | quotas.py:106-111 | a data line of two whitespace-separated integers reads back as that usage and available space |
| Accounts.NumberAndNameComplete | quotas.py:132 | every text of the form digits `(` name `)` rest is matched, with exactly those captures |
| Accounts.NumberAndNameSound | quotas.py:132 | only texts of that form are matched |
| Accounts.MatchIdComplete | quotas.py:132 | every `uid=N(name) gid=N(group) groups=...` line, with or without its final newline, is matched with those five captures |
| Accounts.MatchIdSound | quotas.py:132 | a matched text is exactly such a line |
| Accounts.SecondaryGroups | quotas.py:143-148 | the loop keeps, in order, the pieces of the group list that match `N(name)` |
| Accounts.OthersRoundTrip | quotas.py:143-148 | a rendered secondary-group list reads back to the same groups |
| Accounts.UserData | quotas.py:117-152 | an empty name is exactly the invalid-user error; a non-empty name gets `None` exactly when the line does not match; a matched line with an empty group list is exactly the parse error; no other error; a found identity has non-negative ids and non-empty names without `)` |
| Accounts.GetUserData | quotas.py:117-152 | the method computes that lookup: an empty name rejected, an unmatched line `None`, an empty group list a failure, otherwise the identity |
| Accounts.UserDataRoundTrip | quotas.py:117-149 | the `id` line rendered from any printable identity reads back to that identity |
| Accounts.Lookup | quotas.py:117-131 | what one directory entry's lookup gives: an empty name is the invalid-user error, a failed `id` an execution error, otherwise what the `id` line parses to |
| Accounts.SetDefault | quotas.py:161 | `setdefault`: a name is known afterwards exactly when it was known or is the new one; the old accounts keep their places; only a new account is appended |
| Accounts.UsersGroupsFrom | quotas.py:154-161 | the accounts have distinct names, and each comes from a directory entry with the identity its own `id` output gives |
| Accounts.UsersGroupsFromOk | quotas.py:157-161 | every directory is looked up, even a repeated one: the read succeeds exactly when every lookup does, and otherwise fails with the first failing lookup's error |
| Accounts.UsersGroupsFromComplete | quotas.py:157-161 | a successful read keeps the accounts it started with in front, and knows a name exactly when it was known or names a directory of the listing |
| Accounts.UsersGroups | quotas.py:154-161 | succeeds exactly when every directory's lookup does, else fails with the first failure; every directory name has exactly one account, no other name has one, and each holds its own lookup's result |
| Accounts.Enroll | quotas.py:173-176 | after one account all three categories have lists, and exactly the categories it belongs to gained it at the end |
| Accounts.GetDomainUsers | quotas.py:163-177 | fails exactly when an account is unresolved; no accounts give an empty dict; otherwise each category lists its members in account order |
| Accounts.MembersIff | quotas.py:166-176 | an account is listed under a category exactly when the category's name is its user name, its primary group or one of its secondary groups |
| Accounts.MembersFrom | quotas.py:165-176 | every listed name is one of the accounts |
| Accounts.MembersOnce | quotas.py:154-176 | since the accounts' names are distinct, no account is listed twice under one category |
| Sizes.LocalGroupsUsage | quotas.py:186 | there is nothing to add up exactly when every reported group is Domain Users |
| Sizes.LocalPlusDomain | quotas.py:186-187 | local usage plus Domain Users usage is the usage of all the groups |
| Sizes.LocalGroupsReported | quotas.py:186 | there is local usage to add up exactly when some group other than Domain Users is reported |
| Sizes.CalculateSizes | quotas.py:179-194 | succeeds exactly when Domain Users and some other group are reported. Then the remaining room is capacity minus all group usage minus both 524288-block reserves, and `quota_domains` exceeds it by Domain Users usage plus the admin reserve |
| Sizes.SizesOf | quotas.py:179-181 | the user report, the group report and the capacity are read in that order and the first failure is the result; once all three read, the result, success or failure, is the calculation on the group report and the capacity |
| Sizes.HeavyExact | quotas.py:190 | an integer count is below `0.3 * 1024 * 1024` exactly when it is at most 314572 |
| Sizes.SizesIgnoreLimits | quotas.py:186-193 | the derived sizes depend on usage only, not on limits |
| Sizes.WorkedExample | quotas.py:179-194 | Domain Users 800000 and teachers 50000 on 1000000 used and 2000000 available give `quota_domains` 2425712 and 1101424 remaining |
| Sizes.Unclamped | quotas.py:192-193 | a nearly full disk gives a negative cap and negative room |
| Enforcer.Argv | quotas.py:210-222 | the argument vector is `setquota`, the kind flag, the target, the value twice, the two inode zeros and `/` |
| Enforcer.ArgvInjective | quotas.py:210-222 | distinct commands are distinct argument vectors |
| Enforcer.Apply | quotas.py:199-206 | a command is produced exactly for a reported target and a numeric value; an unreported target is an invalid-target error |
| Enforcer.ApplyQuota | quotas.py:196-225 | a bad kind is a type error; report errors propagate; success exactly for a reported target and a number, with the argument vector `-u` or `-g` gives |
| Enforcer.ReconcileGroup | quotas.py:233-237 | a missing Domain Users entry fails before the sizes; at most one command, issued exactly when the cap differs from `quota_domains`, and it sets that value |
| Enforcer.ApplyCalculatedQuotaGroup | quotas.py:233-237 | the group report is read first; the pass succeeds exactly when it reads, holds Domain Users, and the sizes read; it issues at most one command, exactly when the cap differs from `quota_domains`, setting the cap to it |
| Enforcer.GroupSettles | quotas.py:233-237 | once its command takes effect the cap equals `quota_domains`, and the next pass issues nothing |
| Enforcer.Without | quotas.py:245 | an account is non-privileged exactly when it is a Domain User and not privileged; the list keeps the Domain Users order |
| Enforcer.SetToUsageFailure | quotas.py:248-263 | a loop fails exactly when an account is missing from the user report, and then on the missing entry |
| Enforcer.SetToUsageIssued | quotas.py:248-263 | every command sets a listed, reported account whose limit differs from usage plus the extra to exactly usage plus the extra |
| Enforcer.SetToUsageComplete | quotas.py:248-263 | a loop that runs through issues a command for every listed account whose limit differs from usage plus the extra |
| Enforcer.SetToUsageSettled | quotas.py:248-263 | a loop over accounts already at usage plus the extra issues nothing |
| Enforcer.SetToUsageStops | quotas.py:248-252 | a loop stopped by a missing account has already issued the commands of the accounts before it |
| Enforcer.SetToUsageSetsTo | quotas.py:248-252 | a loop over reported accounts runs through and sets exactly the accounts that are off, each to usage plus the extra |
| Enforcer.PassSettles | quotas.py:248-263 | commands that set every listed account to usage plus the extra settle the list: each limit is then that value and a later loop issues nothing |
| Enforcer.HeavyCommands | quotas.py:247-257 | heavily loaded, the pass runs through, setting the non-privileged to their usage and the privileged to usage plus grace |
| Enforcer.SetToUsageLoop | quotas.py:248-252 | the loop issues, in order, the commands the specification gives |
| Enforcer.UserPolicy | quotas.py:244-263 | a missing category is a type error; with room left (`remaining >= 0`) nothing is issued and nothing fails; the only other failure is a missing report entry; every command targets a reported user |
| Enforcer.CommandsOnlyUnderPressure | quotas.py:246 | a pass that issues a command has read its sizes, and they show no room left |
| Enforcer.EnforceUserPolicy | quotas.py:244-263 | the method computes the policy: the category lists, the room check, then the loops |
| Enforcer.ApplyCalculatedQuotaUsers | quotas.py:239-263 | the pass reads the sizes, then the accounts, then the user report, and applies the policy, with the same early failures |
| Enforcer.NoAccountsFails | quotas.py:244 | with no accounts the classification is empty and the policy fails with a type error |
| Enforcer.CommandValues | quotas.py:246-263 | a non-privileged account is set to its usage when heavily loaded and to usage plus grace otherwise; a privileged one is only set, to usage plus grace, when heavily loaded |
| Enforcer.HeavyPassSettles | quotas.py:247-257 | heavily loaded: the pass runs through, non-privileged end at usage, privileged at usage plus grace, and a second pass issues nothing |
| Enforcer.LightPassSettles | quotas.py:258-263 | otherwise: non-privileged end at usage plus grace, privileged records are unchanged, and a second pass issues nothing |
| Enforcer.TwiceListed | quotas.py:244-257 | a teacher who is also a student is handed the same command twice |
| Enforcer.ResetCommandsIff | quotas.py:299-301 | a full reset clears exactly the reported entries whose limit is non-zero |
| Enforcer.ResetCommandsNone | quotas.py:299-301 | with every limit already 0 a full reset issues nothing |
| Enforcer.Reset | quotas.py:287-301 | a bad kind is a type error, then report errors propagate. A named target fails with exactly the invalid-target error when unreported. Otherwise it gets at most one command, which is issued exactly when its limit is non-zero. No target or "" clears exactly the reported entries whose limit is non-zero, with no failure. Every command sets 0 for the given kind |
| Enforcer.ResetQuota | quotas.py:287-301 | the method computes that reset: the kind check, the report read, then the named target or the loop over the report in order |
| Enforcer.ResetSettles | quotas.py:299-301 | once a full reset takes effect every limit is 0, and another reset issues nothing |
| Enforcer.ResetAllQuotas | quotas.py:303-305 | users are reset, then groups, and a user-side failure stops before the groups |
| Enforcer.ResetAllClears | quotas.py:303-305 | when both reports read, every user and every group limit ends at 0 |
| CommandCache.Cache.constructor | quotas.py:32 | the cache starts empty |
| CommandCache.Cache.Execute | quotas.py:34-57 | runs exactly when the command's slot (or the placeholder) is not fresh at entry. A fresh slot is served as is. A success stores the output stamped with the clock reading after the run. A failure raises and leaves the slot as it was. No other slot changes |
| CommandCache.KeyCollision | quotas.py:43 | two different argument vectors can share a cache key |
| CommandCache.PlaceholderFresh | quotas.py:44-48 | the placeholder is fresh exactly in the first ten seconds of the clock |
| CommandCache.RepeatWithinWindow | quotas.py:43-54 | a new command runs; called again less than ten seconds after that run finished, it is served the same output without running |

## Left out

- Processes, the clock and the directory listing are parameters: report, `df` and `id` texts, the run function of the cache, an integer time in seconds, and the listing as given. The decoding of process output, `os.path.join`, and the process environment (`LANG=C`) are not modelled.
- The calls the model makes are not routed through the cache. Every read within one pass is taken to see the same snapshot. In the source, the re-reads in `apply_quota` are normally served from the cache, but they could see a newer report once ten seconds have passed.
- Because the passes are not routed through the cache, two effects of it on a pass are stated only through `CommandCache`. A repeated identical `setquota` within ten seconds is served from the cache and runs once (`Enforcer.TwiceListed` lists it twice). A report read within ten seconds of an earlier identical read is the earlier, stale output. So `reset_all_quotas` right after a pass sees the report from before that pass's commands, and `Enforcer.ResetAllClears` holds only when the reset reads a report taken after them.
- Accounts.DigitRun: `\d` is matched against ASCII digits only. In Python's `re` on `str`, `\d` also matches other Unicode decimal digits (quotas.py:132, quotas.py:145), and `int()` then reads them.
- The effect of `setquota` on the system is not modelled. `AfterCommands` is an assumption: usage does not move, and the over-limit flags are not recomputed.
- A `setquota` that fails raises inside a pass and ends it. The enforcement outcomes assume every issued command succeeds.
- `take_care_system` and `exit_service` are not modelled: the signal handler, the polling loop with its 0.1-second sleeps, and the one reset after the loop exits. The passes and the reset they run are modelled one by one.
- Logging is not modelled, and neither is the user interface in `kuota.py`.
- Text.ParseInt accepts an optional sign and ASCII digits only. Python's `int()` also accepts surrounding whitespace, underscores between digits and non-ASCII digits.
- Enforcer.Apply takes a value that is a number or not. A float would be truncated by `int()`, but no caller passes one, so that case is not modelled.
- Accounts.GetUserData: the `isinstance(user, str)` check always passes, because names are strings in the model. Errors raised inside the lookup are kept by cause; the source re-wraps them in one generic exception.
- `get_all_repquota`, `get_all_users`, `get_all_groups`, `get_exausted_quota_users` and `get_exausted_quota_groups` are thin wrappers. They are covered by `ReportOf` and by `GetExhaustedQuota` with no target.
- The `Error` constructors name the cause, not the Python exception class.
