/** `execute`: every external command goes through a cache keyed by its
    space-joined argument vector, which serves an output for `SLEEP_TIME`
    seconds after the run that produced it. */
module CommandCache {
  import opened Base
  import opened Text

  /** `SLEEP_TIME`, in seconds. */
  const SleepTime := 10

  /** A cache slot: when the command last ran, and what it printed
      (`None` in the placeholder a first call leaves before it runs). */
  datatype Entry = Entry(time: int, output: Option<string>)

  /** The placeholder `setdefault` inserts for a command never seen before. */
  const Placeholder := Entry(0, None)

  /** The cache key: the arguments joined by single spaces. */
  function Key(argv: seq<string>): string
  {
    Join(argv, ' ')
  }

  /** Whether a slot is still served at time `now` instead of running again. */
  predicate Fresh(entry: Entry, now: int)
  {
    entry.time > now - SleepTime
  }

  /** Distinct argument vectors can share a key once joined: an argument
      holding a space reads like two. */
  lemma KeyCollision()
    ensures ["id", "a b"] != ["id a", "b"]
    ensures Key(["id", "a b"]) == Key(["id a", "b"])
  {
    assert ["id", "a b"][0] != ["id a", "b"][0];
  }

  /** The placeholder is fresh only during the first `SleepTime` seconds of
      the clock, when the call returns nothing without running. */
  lemma PlaceholderFresh(now: int)
    ensures Fresh(Placeholder, now) <==> now < SleepTime
  {
  }

  class Cache {
    var entries: map<string, Entry>

    constructor ()
      ensures entries == map[]
    {
      entries := map[];
    }

    /** `execute(argv)` with the clock reading `now` on entry and `later`
        once the process has finished. `run` stands for the process: what
        it prints, or its failure. A command seen for the first time gets
        the placeholder slot before anything else; a fresh slot is served as
        is; otherwise the command runs, and on success its output goes in
        the slot stamped with `later`, while on failure the slot is left as
        it was and the error is raised. Only the command's own slot changes. */
    method Execute(argv: seq<string>, now: int, later: int, run: seq<string> -> Result<string>)
      returns (out: Result<Option<string>>, executed: bool)
      modifies this
      ensures var key := Key(argv);
              var cached := if key in old(entries) then old(entries)[key] else Placeholder;
              && (executed <==> !Fresh(cached, now))
              && (!executed ==> out == Ok(cached.output) && entries == old(entries)[key := cached])
              && (executed && run(argv).Ok? ==>
                    out == Ok(Some(run(argv).value)) && entries == old(entries)[key := Entry(later, Some(run(argv).value))])
              && (executed && run(argv).Err? ==>
                    out == Err(run(argv).error) && entries == old(entries)[key := cached])
    {
      var key := Key(argv);
      var cached: Entry;
      if key !in entries {
        cached := Placeholder;
        entries := entries[key := Placeholder];
      } else {
        cached := entries[key];
      }
      if Fresh(cached, now) {
        return Ok(entries[key].output), false;
      }
      var result := run(argv);
      if result.Err? {
        return Err(result.error), true;
      }
      entries := entries[key := Entry(later, Some(result.value))];
      return Ok(Some(result.value)), true;
    }
  }

  /** A new command (past the clock's first `SleepTime` seconds) runs, and
      repeated less than `SleepTime` seconds after that run finished it is
      served the same output without running again, even if it would now
      print something else. */
  method RepeatWithinWindow(cache: Cache, argv: seq<string>, now1: int, later1: int, now2: int, later2: int,
                            first: seq<string> -> Result<string>, second: seq<string> -> Result<string>)
    returns (out1: Result<Option<string>>, out2: Result<Option<string>>, ran2: bool)
    requires Key(argv) !in cache.entries && first(argv).Ok?
    requires SleepTime <= now1 && now2 - SleepTime < later1
    modifies cache
    ensures out1 == Ok(Some(first(argv).value))
    ensures !ran2 && out2 == out1
  {
    var ran1;
    out1, ran1 := cache.Execute(argv, now1, later1, first);
    out2, ran2 := cache.Execute(argv, now2, later2, second);
  }
}
