/** The per-room game state the socket handler keeps in memory only
    (`liveGameStates`): a short event log, newest first, and one stat line
    per player. */
module LiveState {
  import opened Base

  datatype LogEntry = LogEntry(user: string, event: string, time: int)

  datatype PlayerStat = PlayerStat(
    id: UserId,
    username: string,
    checkedCount: int,
    hasLine: bool,
    hasBingo: bool)

  datatype Live = Live(eventLog: seq<LogEntry>, playerStats: seq<PlayerStat>)

  /** The log keeps at most this many entries. */
  const LogCap: nat := 20

  /** `eventLog.unshift(e)`, then one `pop()` when the log grew past the cap. */
  function PushLog(log: seq<LogEntry>, e: LogEntry): (r: seq<LogEntry>)
    ensures 1 <= |r| <= |log| + 1 && r[0] == e
    ensures r[1..] == log[..|r| - 1]
    ensures |log| < LogCap ==> |r| == |log| + 1
    ensures |log| >= LogCap ==> |r| == |log|
    ensures |log| <= LogCap ==> |r| <= LogCap
  {
    var grown := [e] + log;
    if |grown| > LogCap then grown[..|grown| - 1] else grown
  }

  /** `playerStats.find(p => p.id === id)`, as the index of the first match. */
  function FirstStat(stats: seq<PlayerStat>, id: UserId): (k: Option<nat>)
    ensures k.None? <==> forall j :: 0 <= j < |stats| ==> stats[j].id != id
    ensures k.Some? ==> k.value < |stats| && stats[k.value].id == id
    ensures k.Some? ==> forall j :: 0 <= j < k.value ==> stats[j].id != id
  {
    if |stats| == 0 then None
    else if stats[0].id == id then Some(0)
    else
      match FirstStat(stats[1..], id)
      case None =>
        assert forall j :: 1 <= j < |stats| ==> stats[j] == stats[1..][j - 1];
        None
      case Some(k) =>
        assert forall j :: 1 <= j < k + 1 ==> stats[j] == stats[1..][j - 1];
        Some(k + 1)
  }

  /** `stats` changed only at index `k`, whose new value is `s`. */
  predicate ChangedOnlyAt(stats: seq<PlayerStat>, r: seq<PlayerStat>, k: nat, s: PlayerStat) {
    |r| == |stats| && k < |stats| && r[k] == s && forall j :: 0 <= j < |r| && j != k ==> r[j] == stats[j]
  }

  /** `playerStat.checkedCount = count` on the first stat of `id`, if any. */
  function SetCheckedCount(stats: seq<PlayerStat>, id: UserId, count: int): (r: seq<PlayerStat>)
    ensures FirstStat(stats, id).None? ==> r == stats
    ensures FirstStat(stats, id).Some? ==>
      var k := FirstStat(stats, id).value;
      ChangedOnlyAt(stats, r, k, stats[k].(checkedCount := count))
  {
    match FirstStat(stats, id)
    case None => stats
    case Some(k) => stats[k := stats[k].(checkedCount := count)]
  }

  /** `playerStat.hasLine = true` on the first stat of `id`, if any. */
  function SetHasLine(stats: seq<PlayerStat>, id: UserId): (r: seq<PlayerStat>)
    ensures FirstStat(stats, id).None? ==> r == stats
    ensures FirstStat(stats, id).Some? ==>
      var k := FirstStat(stats, id).value;
      ChangedOnlyAt(stats, r, k, stats[k].(hasLine := true))
  {
    match FirstStat(stats, id)
    case None => stats
    case Some(k) => stats[k := stats[k].(hasLine := true)]
  }

  /** The ids keep their places, so a second line claim finds the same stat
      and changes nothing. */
  lemma SetHasLineIdempotent(stats: seq<PlayerStat>, id: UserId)
    ensures SetHasLine(SetHasLine(stats, id), id) == SetHasLine(stats, id)
  {
    var once := SetHasLine(stats, id);
    assert forall j :: 0 <= j < |stats| ==> once[j].id == stats[j].id;
    assert FirstStat(once, id) == FirstStat(stats, id) by {
      FirstStatDependsOnIds(stats, once, id);
    }
  }

  /** `FirstStat` looks only at the ids. */
  lemma {:induction false} FirstStatDependsOnIds(a: seq<PlayerStat>, b: seq<PlayerStat>, id: UserId)
    requires |a| == |b|
    requires forall j :: 0 <= j < |a| ==> a[j].id == b[j].id
    ensures FirstStat(a, id) == FirstStat(b, id)
  {
    if |a| > 0 && a[0].id != id {
      FirstStatDependsOnIds(a[1..], b[1..], id);
    }
  }

  /** No stat line in `stats` has its bingo flag set. */
  predicate NoBingoFlag(stats: seq<PlayerStat>) {
    forall j :: 0 <= j < |stats| ==> !stats[j].hasBingo
  }

  /** What every live state satisfies between two handler steps. */
  predicate LiveWf(g: Live) {
    |g.eventLog| <= LogCap && NoBingoFlag(g.playerStats)
  }
}
