/**
 * The Lnd client of main.py: the inactivity filter over the node's channel
 * list and the batch that closes channels one request per channel.
 */
module Lnd {
  import opened Wrappers
  import Decimal
  import ChannelPoint

  /**
   * An Lnd client. Both fields are set once when the client is built and
   * never change, so the client is a value.
   */
  datatype Connection = Connection(restHost: string, adminMacaroon: string)

  /** One entry of the node's channel list, with the fields the core reads. */
  datatype Channel = Channel(chanId: string, channelPoint: string, lifetime: string, uptime: string)

  /** Fourteen days, in seconds. */
  const TwoWeeksSeconds: int := 14 * 24 * 60 * 60

  // ---------------------------------------------------------------------------
  // Inactivity filter
  // ---------------------------------------------------------------------------

  /**
   * int(lifetime) - int(uptime): the seconds, in total over the channel's
   * monitored life, that the peer was offline; None where int() raises.
   */
  function OfflineSeconds(c: Channel): Option<int> {
    match Decimal.ParseInt(c.lifetime)
    case None => None
    case Some(lifetime) =>
      match Decimal.ParseInt(c.uptime)
      case None => None
      case Some(uptime) => Some(lifetime - uptime)
  }

  /** The comprehension's condition: offline strictly longer than two weeks in total. */
  predicate IsInactive(c: Channel)
    requires OfflineSeconds(c).Some?
  {
    OfflineSeconds(c).value > TwoWeeksSeconds
  }

  /** No channel of the list makes int() raise. */
  predicate AllParse(channels: seq<Channel>) {
    forall i :: 0 <= i < |channels| ==> OfflineSeconds(channels[i]).Some?
  }

  /**
   * get_inactive_channels on a given channel list: the channels whose peer was
   * offline for more than two weeks in total, in list order; None where the comprehension raises.
   */
  function GetInactiveChannels(channels: seq<Channel>): (r: Option<seq<Channel>>)
    ensures r.Some? <==> AllParse(channels)
    ensures r.Some? ==> |r.value| <= |channels|
    ensures r.Some? ==> forall c :: c in r.value ==> c in channels && IsInactive(c)
  {
    if channels == [] then Some([])
    else
      var init, last := channels[..|channels| - 1], channels[|channels| - 1];
      assert forall i :: 0 <= i < |init| ==> init[i] == channels[i];
      match GetInactiveChannels(init)
      case None => None
      case Some(kept) =>
        match OfflineSeconds(last)
        case None => None
        case Some(offline) => Some(if offline > TwoWeeksSeconds then kept + [last] else kept)
  }

  /** Positions of the kept channels, in increasing order. */
  ghost function KeptPositions(channels: seq<Channel>): seq<nat>
    requires AllParse(channels)
  {
    if channels == [] then []
    else
      var init := channels[..|channels| - 1];
      assert forall i :: 0 <= i < |init| ==> init[i] == channels[i];
      KeptPositions(init) + (if IsInactive(channels[|channels| - 1]) then [|channels| - 1] else [])
  }

  /**
   * The filter keeps exactly the channels offline for more than two weeks in
   * total and drops exactly those offline for two weeks or less, without adding, repeating
   * or reordering: result[k] is channels[pos[k]] for strictly increasing
   * positions pos that are precisely the positions of the inactive channels.
   */
  lemma GetInactiveChannelsIsOrderedFilter(channels: seq<Channel>)
    requires AllParse(channels)
    ensures var r, pos := GetInactiveChannels(channels).value, KeptPositions(channels);
      |r| == |pos|
      && (forall k :: 0 <= k < |pos| ==> pos[k] < |channels| && r[k] == channels[pos[k]])
      && (forall k, l :: 0 <= k < l < |pos| ==> pos[k] < pos[l])
      && (forall i :: 0 <= i < |channels| ==> (i in pos <==> OfflineSeconds(channels[i]).value > TwoWeeksSeconds))
  {
    KeptAtPositions(channels);
    PositionsIncrease(channels);
    PositionsAreInactive(channels);
  }

  /** The k-th kept channel is the channel at the k-th kept position. */
  lemma {:induction false} KeptAtPositions(channels: seq<Channel>)
    requires AllParse(channels)
    ensures var r, pos := GetInactiveChannels(channels).value, KeptPositions(channels);
      |r| == |pos| && forall k :: 0 <= k < |pos| ==> pos[k] < |channels| && r[k] == channels[pos[k]]
  {
    if channels != [] {
      var n := |channels|;
      var init := channels[..n - 1];
      FilterStep(channels);
      KeptAtPositions(init);
      var r0, pos0 := GetInactiveChannels(init).value, KeptPositions(init);
      var r, pos := GetInactiveChannels(channels).value, KeptPositions(channels);
      forall k | 0 <= k < |pos| ensures pos[k] < n && r[k] == channels[pos[k]] {
        if k < |pos0| {
          assert pos[k] == pos0[k] && r[k] == r0[k];
        }
      }
    }
  }

  /** Kept positions are in range and strictly increasing. */
  lemma {:induction false} PositionsIncrease(channels: seq<Channel>)
    requires AllParse(channels)
    ensures var pos := KeptPositions(channels);
      (forall k :: 0 <= k < |pos| ==> pos[k] < |channels|)
      && forall k, l :: 0 <= k < l < |pos| ==> pos[k] < pos[l]
  {
    if channels != [] {
      var n := |channels|;
      FilterStep(channels);
      PositionsIncrease(channels[..n - 1]);
    }
  }

  /** A position is kept exactly when its channel was offline for more than two weeks in total. */
  lemma {:induction false} PositionsAreInactive(channels: seq<Channel>)
    requires AllParse(channels)
    ensures var pos := KeptPositions(channels);
      forall i :: 0 <= i < |channels| ==> (i in pos <==> OfflineSeconds(channels[i]).value > TwoWeeksSeconds)
  {
    if channels != [] {
      var n := |channels|;
      var init := channels[..n - 1];
      FilterStep(channels);
      PositionsIncrease(init);
      PositionsAreInactive(init);
      var pos0, pos := KeptPositions(init), KeptPositions(channels);
      forall i | 0 <= i < n ensures (i in pos <==> OfflineSeconds(channels[i]).value > TwoWeeksSeconds) {
        if i < n - 1 {
          assert init[i] == channels[i];
          assert i in pos <==> i in pos0;
        }
      }
    }
  }

  /** One step of the filter and of its positions: the last channel is kept or dropped. */
  lemma FilterStep(channels: seq<Channel>)
    requires AllParse(channels) && channels != []
    ensures var n := |channels|;
      var init, last := channels[..n - 1], channels[n - 1];
      AllParse(init)
      && (forall i :: 0 <= i < n - 1 ==> init[i] == channels[i])
      && GetInactiveChannels(channels).value
           == GetInactiveChannels(init).value + (if IsInactive(last) then [last] else [])
      && KeptPositions(channels) == KeptPositions(init) + (if IsInactive(last) then [n - 1] else [])
  {
  }

  /**
   * A listed channel is in the result exactly when it was offline for more
   * than two weeks in total; one left out was offline for two weeks or less.
   */
  lemma {:induction false} InactiveMembership(channels: seq<Channel>, i: nat)
    requires AllParse(channels) && i < |channels|
    ensures channels[i] in GetInactiveChannels(channels).value <==> OfflineSeconds(channels[i]).value > TwoWeeksSeconds
  {
    GetInactiveChannelsIsOrderedFilter(channels);
    var pos := KeptPositions(channels);
    if OfflineSeconds(channels[i]).value > TwoWeeksSeconds {
      var k :| 0 <= k < |pos| && pos[k] == i;
      assert GetInactiveChannels(channels).value[k] == channels[i];
    }
  }

  /** A list in which no channel was offline for more than two weeks in total yields no channel. */
  lemma {:induction false} NoneOverThresholdNoneKept(channels: seq<Channel>)
    requires AllParse(channels)
    requires forall i :: 0 <= i < |channels| ==> OfflineSeconds(channels[i]).value <= TwoWeeksSeconds
    ensures GetInactiveChannels(channels) == Some([])
  {
    if channels != [] {
      var init := channels[..|channels| - 1];
      assert forall i :: 0 <= i < |init| ==> init[i] == channels[i];
      NoneOverThresholdNoneKept(init);
    }
  }

  /**
   * The threshold is strict: for any uptime u, a channel whose lifetime is
   * exactly two weeks longer is kept out, and one a second longer is kept.
   */
  lemma {:induction false} ThresholdIsStrict(chanId: string, point: string, u: int)
    ensures var atLimit := Channel(chanId, point, Decimal.FormatInt(u + TwoWeeksSeconds), Decimal.FormatInt(u));
      GetInactiveChannels([atLimit]) == Some([])
    ensures var overLimit := Channel(chanId, point, Decimal.FormatInt(u + TwoWeeksSeconds + 1), Decimal.FormatInt(u));
      GetInactiveChannels([overLimit]) == Some([overLimit])
  {
    Decimal.ParseFormatRoundTrip(u);
    Decimal.ParseFormatRoundTrip(u + TwoWeeksSeconds);
    Decimal.ParseFormatRoundTrip(u + TwoWeeksSeconds + 1);
    var atLimit := Channel(chanId, point, Decimal.FormatInt(u + TwoWeeksSeconds), Decimal.FormatInt(u));
    var overLimit := Channel(chanId, point, Decimal.FormatInt(u + TwoWeeksSeconds + 1), Decimal.FormatInt(u));
    assert [atLimit][..0] == [];
    assert [overLimit][..0] == [];
    assert OfflineSeconds(overLimit) == Some(TwoWeeksSeconds + 1);
    assert [] + [overLimit] == [overLimit];
  }

  // ---------------------------------------------------------------------------
  // Closing a batch of channels
  // ---------------------------------------------------------------------------

  /** The arguments one close_channel coroutine is created with. */
  datatype CloseTask = CloseTask(txid: string, vout: string, chanId: string)

  /** The task for one channel; None where splitting its channel point raises. */
  function TaskFor(c: Channel): (t: Option<CloseTask>)
    ensures t.Some? <==> ChannelPoint.Count(c.channelPoint, ChannelPoint.Colon) == 1
    ensures t.Some? ==> t.value.txid + [ChannelPoint.Colon] + t.value.vout == c.channelPoint
    ensures t.Some? ==> t.value.chanId == c.chanId
  {
    match ChannelPoint.SplitChannelPoint(c.channelPoint)
    case None => None
    case Some((txid, vout)) => Some(CloseTask(txid, vout, c.chanId))
  }

  /** An HTTP DELETE as call_lnd issues it: the full URL and the macaroon header. */
  datatype Request = Delete(url: string, macaroon: string)

  /**
   * What the HTTP library gives back for a request: either it raised (no
   * connection, TLS failure, timeout, ...) or the node answered with some
   * status and body. An error status does not raise.
   */
  datatype Reply = Raised(error: string) | Answered(status: int, text: string)

  /** The node behind the REST host, as seen through the HTTP library. */
  type Transport = Request -> Reply

  /** The REST route that closes the channel funded by output vout of txid. */
  function CloseRoute(txid: string, vout: string): string {
    "/v1/channels/" + txid + "/" + vout
  }

  /** The request close_channel sends for a task. */
  function CloseRequest(conn: Connection, task: CloseTask): (req: Request)
    ensures req.macaroon == conn.adminMacaroon
    ensures |req.url| >= |conn.restHost| && req.url[..|conn.restHost|] == conn.restHost
    ensures req.url[|conn.restHost|..] == CloseRoute(task.txid, task.vout)
  {
    Delete(conn.restHost + CloseRoute(task.txid, task.vout), conn.adminMacaroon)
  }

  /**
   * A close request names one funding outpoint: as long as transaction ids
   * hold no '/', two tasks whose requests coincide close the same output of
   * the same transaction, so no request can close another channel.
   */
  lemma CloseRequestNamesOneOutpoint(conn: Connection, t1: CloseTask, t2: CloseTask)
    requires '/' !in t1.txid && '/' !in t2.txid
    requires CloseRequest(conn, t1) == CloseRequest(conn, t2)
    ensures t1.txid == t2.txid && t1.vout == t2.vout
  {
    var prefix := "/v1/channels/";
    var route1, route2 := CloseRoute(t1.txid, t1.vout), CloseRoute(t2.txid, t2.vout);
    assert route1 == route2;
    var rest1, rest2 := t1.txid + ['/'] + t1.vout, t2.txid + ['/'] + t2.vout;
    assert route1 == prefix + rest1 && route2 == prefix + rest2;
    assert rest1 == route1[|prefix|..] && rest2 == route2[|prefix|..];
    ChannelPoint.SplitAtFirstSeparator(t1.txid, t1.vout, '/');
    ChannelPoint.SplitAtFirstSeparator(t2.txid, t2.vout, '/');
    assert rest1 == rest2;
    assert ChannelPoint.Split(rest1, '/')[0] == t1.txid;
    assert ChannelPoint.Split(rest2, '/')[0] == t2.txid;
    assert t1.vout == rest1[|t1.txid| + 1..] && t2.vout == rest2[|t2.txid| + 1..];
  }

  /**
   * close_channel: the body of the node's answer, whatever its status, or
   * None when sending the request raised; the exception never escapes.
   */
  function CloseChannel(conn: Connection, transport: Transport, task: CloseTask): (r: Option<string>)
    ensures r.None? <==> transport(CloseRequest(conn, task)).Raised?
    ensures r.Some? ==> r.value == transport(CloseRequest(conn, task)).text
  {
    match transport(CloseRequest(conn, task))
    case Raised(_) => None
    case Answered(_, text) => Some(text)
  }

  /** Channel i's point splits; the batch can be scheduled only if all do. */
  predicate AllSplit(channels: seq<Channel>) {
    forall i :: 0 <= i < |channels| ==> TaskFor(channels[i]).Some?
  }

  /**
   * The loop that builds the task list: one task per channel, in channel
   * order, each from that channel's own point and id; None as soon as one
   * point does not split, the rest of the list being left unvisited.
   */
  method ScheduleCloses(channels: seq<Channel>) returns (tasks: Option<seq<CloseTask>>)
    ensures tasks.Some? <==> AllSplit(channels)
    ensures tasks.Some? ==> |tasks.value| == |channels|
    ensures tasks.Some? ==> forall i :: 0 <= i < |channels| ==> TaskFor(channels[i]) == Some(tasks.value[i])
  {
    var scheduled: seq<CloseTask> := [];
    for i := 0 to |channels|
      invariant |scheduled| == i
      invariant forall j :: 0 <= j < i ==> TaskFor(channels[j]) == Some(scheduled[j])
    {
      var task := TaskFor(channels[i]);
      if task.None? {
        return None;
      }
      scheduled := scheduled + [task.value];
    }
    return Some(scheduled);
  }

  /**
   * asyncio.gather over the close_channel coroutines, run one after another:
   * every task sends its own request, and result i is task i's outcome
   * whatever happened to the other tasks.
   */
  method Gather(conn: Connection, transport: Transport, tasks: seq<CloseTask>)
    returns (results: seq<Option<string>>, sent: seq<Request>)
    ensures |results| == |tasks| && |sent| == |tasks|
    ensures forall i :: 0 <= i < |tasks| ==>
      sent[i] == CloseRequest(conn, tasks[i]) && results[i] == CloseChannel(conn, transport, tasks[i])
  {
    results, sent := [], [];
    for i := 0 to |tasks|
      invariant |results| == i && |sent| == i
      invariant forall j :: 0 <= j < i ==>
        sent[j] == CloseRequest(conn, tasks[j]) && results[j] == CloseChannel(conn, transport, tasks[j])
    {
      var request := CloseRequest(conn, tasks[i]);
      sent := sent + [request];
      results := results + [CloseChannel(conn, transport, tasks[i])];
    }
  }

  /**
   * What a completed batch looks like: one request and one result per
   * channel, in channel order, each from that channel's own task.
   */
  predicate ClosedInOrder(conn: Connection, transport: Transport, channels: seq<Channel>,
                          results: seq<Option<string>>, sent: seq<Request>)
  {
    AllSplit(channels)
    && |results| == |channels| && |sent| == |channels|
    && forall i :: 0 <= i < |channels| ==>
         sent[i] == CloseRequest(conn, TaskFor(channels[i]).value)
         && results[i] == CloseChannel(conn, transport, TaskFor(channels[i]).value)
  }

  /**
   * close_channels: None, with no request sent at all, when some channel
   * point does not split (the exception leaves the loop before any coroutine
   * runs); otherwise the gathered results, aligned with the channels.
   */
  method CloseChannels(conn: Connection, transport: Transport, channels: seq<Channel>)
    returns (results: Option<seq<Option<string>>>, sent: seq<Request>)
    ensures results.None? <==> !AllSplit(channels)
    ensures results.None? ==> sent == []
    ensures results.Some? ==> ClosedInOrder(conn, transport, channels, results.value, sent)
  {
    var tasks := ScheduleCloses(channels);
    if tasks.None? {
      return None, [];
    }
    var gathered;
    gathered, sent := Gather(conn, transport, tasks.value);
    results := Some(gathered);
  }

  /**
   * One failing close affects its own position only: whatever the node does
   * with the other requests, the outcome for channel i is decided by the
   * reply to channel i's request alone.
   */
  lemma FailureIsIsolated(conn: Connection, t1: Transport, t2: Transport, channels: seq<Channel>,
                          r1: seq<Option<string>>, s1: seq<Request>,
                          r2: seq<Option<string>>, s2: seq<Request>, i: nat)
    requires ClosedInOrder(conn, t1, channels, r1, s1)
    requires ClosedInOrder(conn, t2, channels, r2, s2)
    requires i < |channels| && t1(s1[i]) == t2(s2[i])
    ensures s1 == s2
    ensures r1[i] == r2[i]
  {
  }
}
