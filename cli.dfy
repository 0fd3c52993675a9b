/**
 * The script's main(): find the inactive channels, stop when there are none,
 * show their ids for confirmation, and close them as one batch.
 */
module Cli {
  import opened Wrappers
  import opened Lnd

  /** The ids shown in the confirmation prompt, one per inactive channel, in order. */
  function ChanIds(cold: seq<Channel>): (ids: seq<string>)
    ensures |ids| == |cold|
    ensures forall i :: 0 <= i < |cold| ==> ids[i] == cold[i].chanId
  {
    if cold == [] then [] else [cold[0].chanId] + ChanIds(cold[1..])
  }

  /** How a run of main() ends. */
  datatype Outcome =
    | ListingFailed                                                 // get_inactive_channels raised
    | NothingToClose                                                // no inactive channel: early return
    | Declined(prompted: seq<string>)                               // the operator answered 'n'
    | ClosingFailed(prompted: seq<string>)                          // close_channels raised
    | Closed(prompted: seq<string>, results: seq<Option<string>>)   // the batch ran to the end

  /** The requests a run sends are exactly those of closing every inactive channel. */
  predicate Ran(conn: Connection, transport: Transport, channels: seq<Channel>, confirmed: bool,
                outcome: Outcome, sent: seq<Request>)
  {
    match GetInactiveChannels(channels)
    case None => outcome == ListingFailed && sent == []
    case Some(cold) =>
      if cold == [] then outcome == NothingToClose && sent == []
      else if !confirmed then outcome == Declined(ChanIds(cold)) && sent == []
      else if !AllSplit(cold) then outcome == ClosingFailed(ChanIds(cold)) && sent == []
      else (outcome.Closed? && outcome.prompted == ChanIds(cold)
            && ClosedInOrder(conn, transport, cold, outcome.results, sent))
  }

  /**
   * main() on a given channel list, with `confirmed` the operator's answer to
   * the prompt. Nothing is sent unless inactive channels exist, the operator
   * confirmed and every channel point splits.
   */
  method Run(conn: Connection, transport: Transport, channels: seq<Channel>, confirmed: bool)
    returns (outcome: Outcome, sent: seq<Request>)
    ensures Ran(conn, transport, channels, confirmed, outcome, sent)
    ensures sent != [] ==> confirmed && outcome.Closed?
  {
    var inactive := GetInactiveChannels(channels);
    if inactive.None? {
      return ListingFailed, [];
    }
    var cold := inactive.value;
    if |cold| == 0 {
      return NothingToClose, [];
    }
    var chanIds := ChanIds(cold);
    if !confirmed {
      return Declined(chanIds), [];
    }
    var results;
    results, sent := CloseChannels(conn, transport, cold);
    if results.None? {
      return ClosingFailed(chanIds), sent;
    }
    outcome := Closed(chanIds, results.value);
  }

  /** A run over a list with no inactive channel (the empty list among them) sends nothing. */
  lemma NoInactiveChannelsNoRequests(conn: Connection, transport: Transport, channels: seq<Channel>,
                                     confirmed: bool, outcome: Outcome, sent: seq<Request>)
    requires Ran(conn, transport, channels, confirmed, outcome, sent)
    requires AllParse(channels)
    requires forall i :: 0 <= i < |channels| ==> OfflineSeconds(channels[i]).value <= TwoWeeksSeconds
    ensures outcome == NothingToClose && sent == []
  {
    NoneOverThresholdNoneKept(channels);
  }
}
