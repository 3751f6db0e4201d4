/**
 * The play-history poll: once per tick the currently-playing reply is read,
 * compared with the most recent stored play, and at most one record is
 * appended to the history log.
 *
 * Time is an integer number of milliseconds.
 */
module PlayHistory {
  import opened Wrappers
  import Artists

  /** One stored row of the history table: name, joined artists, insertion time, track length. */
  datatype Record = Record(name: string, artist: string, timestamp: int, durationMs: nat)

  /** The `item` object of a currently-playing reply: track name, artist names in order, length. */
  datatype Item = Item(name: string, artists: seq<string>, durationMs: nat)

  /**
   * The currently-playing reply as the poll reads it.  `NoBody` is a reply
   * whose body is not JSON (the 204 the provider sends when idle), on which
   * decoding the body raises.  In `Body`, a missing or false `is_playing`
   * is `false`, and an absent or null `item` or an absent `progress_ms` is `None`.
   * A `progress_ms` that is present but null reads without raising and is `Some`;
   * its value is never used.
   */
  datatype Reply =
    | NoBody
    | Body(isPlaying: bool, item: Option<Item>, progressMs: Option<int>)

  /** What one poll did. `Failed` is a poll that raised before touching the log. */
  datatype PollOutcome = Failed | NotPlaying | Suppressed | Inserted

  /** One scheduler tick: the reply the provider gave and the clock reading. */
  datatype Tick = Tick(reply: Reply, now: int)

  predicate IsPlaying(reply: Reply)
  {
    reply.Body? && reply.isPlaying
  }

  /** A playing reply from which the poll extracts every field without raising. */
  predicate WellFormed(reply: Reply)
  {
    IsPlaying(reply) && reply.item.Some? && reply.progressMs.Some?
  }

  /**
   * Index of the row that ordering by timestamp, newest first, yields first.
   * Among rows with equal timestamps the most recently inserted one is taken.
   */
  function LatestIndex(log: seq<Record>): (i: nat)
    requires |log| > 0
    ensures i < |log|
    ensures forall j :: 0 <= j < |log| ==> log[j].timestamp <= log[i].timestamp
    ensures forall j :: i < j < |log| ==> log[j].timestamp < log[i].timestamp
  {
    if |log| == 1 then 0
    else
      var k := LatestIndex(log[..|log| - 1]);
      if log[k].timestamp <= log[|log| - 1].timestamp then |log| - 1 else k
  }

  function Latest(log: seq<Record>): Option<Record>
  {
    if |log| == 0 then None else Some(log[LatestIndex(log)])
  }

  /** The record a poll of a track stores: joined artists, stamped with the poll time. */
  function NewRecord(item: Item, now: int): Record
  {
    Record(item.name, Artists.Join(item.artists), now, item.durationMs)
  }

  /** Same track name and same joined artist string as a stored record. */
  predicate SameTrack(item: Item, last: Record)
  {
    item.name == last.name && Artists.Join(item.artists) == last.artist
  }

  /** The stored play is still running at `now`: its end is later than now. */
  predicate InWindow(last: Record, now: int)
  {
    now < last.timestamp + last.durationMs
  }

  /** The dedup rule: only a report of the latest play's track within that play's window is dropped. */
  predicate ShouldInsert(last: Option<Record>, item: Item, now: int)
  {
    match last
    case None => true
    case Some(r) => !(SameTrack(item, r) && InWindow(r, now))
  }

  function Outcome(log: seq<Record>, reply: Reply, now: int): PollOutcome
  {
    if reply.NoBody? then Failed
    else if !reply.isPlaying then NotPlaying
    else if reply.item.None? || reply.progressMs.None? then Failed
    else if ShouldInsert(Latest(log), reply.item.value, now) then Inserted
    else Suppressed
  }

  /** The log after one poll. It is the old log, or the old log with exactly one record added. */
  function Next(log: seq<Record>, reply: Reply, now: int): (r: seq<Record>)
    ensures r == log || (|r| == |log| + 1 && r[..|log|] == log)
  {
    match Outcome(log, reply, now)
    case Inserted => log + [NewRecord(reply.item.value, now)]
    case _ => log
  }

  /** The log after a sequence of polls. */
  function Run(log: seq<Record>, ticks: seq<Tick>): seq<Record>
    decreases |ticks|
  {
    if |ticks| == 0 then log
    else Run(Next(log, ticks[0].reply, ticks[0].now), ticks[1..])
  }

  /** The play-history table, appended to by the poll. */
  class History {
    var log: seq<Record>

    /** The table as it stands when the process starts. */
    constructor (initial: seq<Record>)
      ensures log == initial
    {
      log := initial;
    }

    /** One poll: reads the reply, and appends a record unless the dedup rule drops it. */
    method Poll(reply: Reply, now: int) returns (outcome: PollOutcome)
      modifies this
      ensures outcome == Outcome(old(log), reply, now)
      ensures log == Next(old(log), reply, now)
    {
      if reply.NoBody? {
        return Failed;
      }
      if !reply.isPlaying {
        return NotPlaying;
      }
      if reply.item.None? || reply.progressMs.None? {
        return Failed;
      }
      var item := reply.item.value;
      if !ShouldInsert(Latest(log), item, now) {
        return Suppressed;
      }
      log := log + [NewRecord(item, now)];
      outcome := Inserted;
    }
  }

  /**
   * A reply that does not report a track playing, or from which the poll
   * cannot read `item` or `progress_ms`, leaves the log as it was.
   */
  lemma NotPlayingKeepsLog(log: seq<Record>, reply: Reply, now: int)
    requires !WellFormed(reply)
    ensures Outcome(log, reply, now) in {Failed, NotPlaying}
    ensures Next(log, reply, now) == log
  {
  }

  /**
   * A poll drops the report exactly when there is a stored play, the report
   * names the same track and artists as the newest one, and that play has not ended;
   * otherwise it appends the report's record stamped `now`.
   */
  lemma SuppressedIff(log: seq<Record>, reply: Reply, now: int)
    requires WellFormed(reply)
    ensures Outcome(log, reply, now) == Suppressed <==>
      |log| > 0 && SameTrack(reply.item.value, log[LatestIndex(log)]) && InWindow(log[LatestIndex(log)], now)
    ensures Outcome(log, reply, now) == Suppressed ==> Next(log, reply, now) == log
    ensures Outcome(log, reply, now) != Suppressed ==>
      Next(log, reply, now) == log + [NewRecord(reply.item.value, now)]
  {
  }

  /** An empty log, or a report whose name or artists differ from the newest play, is always stored. */
  lemma ChangedTrackInserts(log: seq<Record>, reply: Reply, now: int)
    requires WellFormed(reply)
    requires |log| == 0 || !SameTrack(reply.item.value, log[LatestIndex(log)])
    ensures Next(log, reply, now) == log + [Record(reply.item.value.name, Artists.Join(reply.item.value.artists), now, reply.item.value.durationMs)]
  {
  }

  /** The same track reported at or after the newest play's end is stored again, as a replay. */
  lemma ReplayAfterWindowInserts(log: seq<Record>, reply: Reply, now: int)
    requires WellFormed(reply) && |log| > 0
    requires SameTrack(reply.item.value, log[LatestIndex(log)])
    requires now >= log[LatestIndex(log)].timestamp + log[LatestIndex(log)].durationMs
    ensures Next(log, reply, now) == log + [NewRecord(reply.item.value, now)]
  {
  }

  /**
   * The stored artist string is the reply's artist names in order, joined by ", ":
   * splitting it gives the names back when none of them holds a comma.
   */
  lemma StoredArtistIsJoin(log: seq<Record>, reply: Reply, now: int)
    requires Outcome(log, reply, now) == Inserted
    requires |reply.item.value.artists| >= 1
    requires forall k :: 0 <= k < |reply.item.value.artists| ==> Artists.CommaFree(reply.item.value.artists[k])
    ensures |Next(log, reply, now)| == |log| + 1
    ensures Artists.Split(Next(log, reply, now)[|log|].artist) == reply.item.value.artists
  {
    Artists.SplitJoin(reply.item.value.artists);
  }

  /** A record stamped no earlier than every stored one becomes the newest play. */
  lemma AppendedBecomesLatest(log: seq<Record>, rec: Record)
    requires forall j :: 0 <= j < |log| ==> log[j].timestamp <= rec.timestamp
    ensures LatestIndex(log + [rec]) == |log|
  {
  }

  /**
   * While the newest play is in its window, every poll reporting the same name
   * and joined artists is dropped, whatever the reported length or artist list.
   */
  lemma {:induction false} RepeatsSuppressed(log: seq<Record>, ticks: seq<Tick>)
    requires |log| > 0
    requires forall k :: 0 <= k < |ticks| ==>
      WellFormed(ticks[k].reply) && SameTrack(ticks[k].reply.item.value, log[LatestIndex(log)]) &&
      InWindow(log[LatestIndex(log)], ticks[k].now)
    ensures Run(log, ticks) == log
    decreases |ticks|
  {
    if |ticks| > 0 {
      assert Next(log, ticks[0].reply, ticks[0].now) == log;
      RepeatsSuppressed(log, ticks[1..]);
    }
  }

  /**
   * Dedup over time: once a report is stored at `t0`, any number of further
   * reports with the same name and joined artists before its end add nothing, so the whole run stores
   * exactly one record (given the clock did not go back before a stored row).
   */
  lemma {:induction false} RepeatedReportsStoreOnce(log: seq<Record>, first: Reply, t0: int, ticks: seq<Tick>)
    requires forall j :: 0 <= j < |log| ==> log[j].timestamp <= t0
    requires WellFormed(first) && ShouldInsert(Latest(log), first.item.value, t0)
    requires forall k :: 0 <= k < |ticks| ==>
      WellFormed(ticks[k].reply) && SameTrack(ticks[k].reply.item.value, NewRecord(first.item.value, t0)) &&
      ticks[k].now < t0 + first.item.value.durationMs
    ensures Run(log, [Tick(first, t0)] + ticks) == log + [NewRecord(first.item.value, t0)]
  {
    var item := first.item.value;
    assert ([Tick(first, t0)] + ticks)[1..] == ticks;
    AppendedBecomesLatest(log, NewRecord(item, t0));
    RepeatsSuppressed(log + [NewRecord(item, t0)], ticks);
  }

  /**
   * Reports are compared by the joined string, so one naming the artists
   * "X" and "Y" is dropped after a stored play of one artist named "X, Y".
   */
  lemma JoinedArtistsCompared(log: seq<Record>, t0: int)
    requires forall j :: 0 <= j < |log| ==> log[j].timestamp <= t0
    requires ShouldInsert(Latest(log), Item("A", ["X, Y"], 200000), t0)
    ensures var stored := Next(log, Body(true, Some(Item("A", ["X, Y"], 200000)), Some(0)), t0);
      |stored| == |log| + 1 &&
      Next(stored, Body(true, Some(Item("A", ["X", "Y"], 5)), Some(0)), t0 + 1000) == stored
  {
    AppendedBecomesLatest(log, NewRecord(Item("A", ["X, Y"], 200000), t0));
    assert Artists.Join(["X", "Y"]) == "X, Y";
  }

  /** Every poll keeps the rows already stored, in order, and adds at most one. */
  lemma {:induction false} RunKeepsPrefix(log: seq<Record>, ticks: seq<Tick>)
    ensures |log| <= |Run(log, ticks)| <= |log| + |ticks|
    ensures Run(log, ticks)[..|log|] == log
    decreases |ticks|
  {
    if |ticks| > 0 {
      var next := Next(log, ticks[0].reply, ticks[0].now);
      RunKeepsPrefix(next, ticks[1..]);
      assert Run(log, ticks)[..|next|] == next;
      assert next[..|log|] == log;
    }
  }

  /**
   * A track of 200 s stored at time 0 is not stored again by a poll at 1 s,
   * and is stored again by a poll at 201 s.
   */
  lemma ReplayScenario()
    ensures var item := Item("A", ["X"], 200000);
      var playing := Body(true, Some(item), Some(0));
      var afterFirst := Next([], playing, 0);
      var afterSecond := Next(afterFirst, playing, 1000);
      afterFirst == [Record("A", "X", 0, 200000)] &&
      afterSecond == afterFirst &&
      Next(afterSecond, playing, 201000) == [Record("A", "X", 0, 200000), Record("A", "X", 201000, 200000)]
  {
  }
}
