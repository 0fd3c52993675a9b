# channel-closer, modelled in Dafny

channel-closer is a one-file Python script for an LND Lightning node. It asks the
node for its open channels and keeps those whose peer has been offline for more
than two weeks in total over the channel's life. It shows their ids, asks for
confirmation, and then sends one close request per channel through the node's
REST interface. A close that raises gives `None` for that channel only.

The close requests are scheduled with `asyncio.gather`, but they do not overlap.
`close_channel` never awaits, and the HTTP call inside it blocks. So `gather`
runs each close to completion before it starts the next, in list order. The
model's `Gather` is this in-order loop.

The model covers the parts of `main.py` that compute something:

- `Decimal`: Python's `int()` on the decimal strings the node uses for counters.
- `ChannelPoint`: `str.split(':')` and the unpacking of a channel point `"txid:vout"`
  into its two halves, with `Join` as the inverse.
- `Lnd`: the client's settings as a value (`Connection`), the inactivity filter
  `GetInactiveChannels`, one channel's close (`CloseChannel`), the loop that builds
  the task list (`ScheduleCloses`), the join of the tasks (`Gather`, run in order), and
  `CloseChannels`, which composes them.
- `Cli`: `main()`, meaning the empty-list stop, the `chan_ids` shown in the prompt, the
  operator's answer and the close batch (`Run`).

The node is a parameter. `Transport` maps each HTTP request to the library's reply:
either it raised, or the node answered with a status and a body. The methods also
return `sent`, the requests issued in order. This is how the contracts say which
closes were attempted.

The script behaves as follows, and the model does the same:

- Inactivity is decided by one rule only: `int(lifetime) - int(uptime) > 1209600`
  (`main.py:58`). There is no classification from graph edges, invoices, payments
  or forwarding events.
- The channel point comes from the channel record itself. There is no graph-edge
  lookup and no "skipped, unresolved" outcome.
- A malformed channel point is not isolated to its channel. The `ValueError` leaves
  the scheduling loop before any coroutine has run, so no channel of the batch is
  closed (`ScheduleCloses`, `CloseChannels`).
- An HTTP error status is not a failure. `requests` does not raise on one, so
  `close_channel` returns the body text. Only an exception gives `None`.
- `close_channels` only prints its results. The model returns them.
- The source comment at main.py:47 says the tasks are scheduled concurrently so
  that the call does not block. They are not: each close blocks until the node answers.
- The source comment at main.py:54 describes channels inactive during the last two
  weeks. The code computes no such window. `lifetime - uptime` is the peer's total
  offline time over the channel's monitored life.

## Model

| member | source | states |
|---|---|---|
| `Decimal.ParseInt` | main.py:58 | succeeds exactly on an optional sign followed by one or more digits; otherwise int() raises |
| `Decimal.ParseFormatRoundTrip` | main.py:58 | int(str(n)) == n for every integer n of at most 4300 digits, which covers every int64 counter the node prints; the model also proves it beyond that length, where CPython 3.11+ raises |
| `Decimal.ParseIntLeadingZero` | main.py:58 | a leading zero does not change the parsed value |
| `Decimal.ParseIntPlusSign` | main.py:58 | a leading '+' does not change the parsed value |
| `Decimal.ParseIntMinusSign` | main.py:58 | a leading '-' negates the value of the digits, so int("-0") == 0 and int("-007") == -7 |
| `ChannelPoint.Split` | main.py:46 | split(':') yields one more piece than there are colons, and no piece contains a colon |
| `ChannelPoint.JoinSplit` | main.py:46 | joining the pieces with ':' gives back the original string |
| `ChannelPoint.SplitJoin` | main.py:46 | splitting a ':'-join of colon-free pieces gives back those pieces |
| `ChannelPoint.SplitChannelPoint` | main.py:46 | the two-name unpacking succeeds iff the point holds exactly one ':'; then txid + ":" + vout is the point and neither half holds a ':' |
| `ChannelPoint.ChannelPointRoundTrip` | main.py:46 | any colon-free txid and vout are recovered from "txid:vout" |
| `Lnd.GetInactiveChannels` | main.py:55-58 | fails iff some lifetime or uptime is not an integer literal; otherwise each kept channel is from the input and was offline more than two weeks in total, and there are at most as many as in the input |
| `Lnd.GetInactiveChannelsIsOrderedFilter` | main.py:58 | result[k] == channels[pos[k]] with strictly increasing positions pos that are exactly the positions whose lifetime - uptime > 1209600: an order-preserving filter that adds, repeats and drops nothing else |
| `Lnd.InactiveMembership` | main.py:57-58 | a listed channel is returned iff lifetime - uptime > 1209600; a channel not returned has lifetime - uptime <= 1209600 |
| `Lnd.NoneOverThresholdNoneKept` | main.py:58 | a list with no channel over the threshold, the empty list included, gives the empty list |
| `Lnd.ThresholdIsStrict` | main.py:57-58 | a channel offline exactly 1209600 seconds in total is not kept; one offline 1209601 seconds is |
| `Lnd.TaskFor` | main.py:46-48 | a channel yields a task iff its point has exactly one ':'; the task's txid and vout rejoin to the point and it carries the channel's own chan_id |
| `Lnd.CloseRequestNamesOneOutpoint` | main.py:36 | the DELETE to {host}/v1/channels/{txid}/{vout} names one outpoint: for txids without '/', equal requests have equal txid and vout, so no request closes another channel |
| `Lnd.CloseChannel` | main.py:34-41 | None exactly when sending the request raised; otherwise the body of the reply, whatever its status |
| `Lnd.ScheduleCloses` | main.py:44-48 | builds the task list iff every channel point splits; then it has one task per channel, in channel order, task i being channel i's |
| `Lnd.Gather` | main.py:50-51 | one request and one result per task, in task order; result i is task i's outcome alone |
| `Lnd.CloseChannels` | main.py:43-52 | no request at all when some channel point does not split; otherwise request i and result i belong to channel i, for every channel |
| `Lnd.FailureIsIsolated` | main.py:35-41 | two batches over the same channels send the same requests, and position i has the same result whenever the node answers request i alike, however the other requests fare |
| `Cli.ChanIds` | main.py:96 | one id per inactive channel, ids[i] being channel i's chan_id |
| `Cli.Run` | main.py:83-108 | ends as the filter, the empty check, the answer and the split decide; requests are sent only when inactive channels exist, the operator confirmed and every point splits, and then they are exactly the batch's |
| `Cli.NoInactiveChannelsNoRequests` | main.py:92-94 | when no channel is over the threshold, including an empty list, main stops with nothing to close and sends nothing |

## Left out

- Transport: `call_lnd`, `get_info`, `list_channels`, TLS and JSON decoding are not modelled, because they are plain HTTP plumbing. The channel list is an input, and the node is the `Transport` parameter.
- `call_lnd`'s branch for unsupported methods is left out, because `close_channel` always uses DELETE.
- `Lnd.CloseChannel`: the node is a deterministic function of the request. Two identical requests in one batch get the same reply, which a real node need not give.
- `Lnd.Gather`: the in-order loop is how `gather` runs these coroutines, because none of them awaits. Not modelled: the unawaited coroutines a failed schedule leaves behind, and so the warnings Python prints about them.
- `Lnd.FailureIsIsolated`: covers closes that raise, not closes that hang. `requests.delete` is called without a timeout. A request that never returns holds up every later channel, and `gather` then never returns. The total `Transport` function cannot express a request that never returns.
- Interactive input: the `getpass` prompts of `setup_lnd` and the y/n loop in `main` are not modelled. The answer becomes the `confirmed` parameter of `Cli.Run`.
- Output: every `print` and the JSON pretty-printer `pj` are left out.
- Float threshold: `timedelta.total_seconds()` is the float 1209600.0. Python compares int with float exactly, so the model uses the integer 1209600.
- `Decimal.ParseInt`: rejects some strings Python's `int()` accepts, namely surrounding whitespace, underscores between digits and non-ASCII digits. The node never sends these.
- `Decimal.ParseInt`: does not model the limit on integer-string conversion in CPython 3.11 and later (and in 3.10.7, 3.9.14, 3.8.14 and 3.7.14). Those versions raise `ValueError` for a literal of more than 4300 digits, and the model accepts it. The node sends only int64 counters, of at most 20 characters.
- `Decimal.FormatInt`: `str(n)` raises for integers of more than 4300 digits on the same versions, and the model prints them.
- Missing fields: a channel record with no `lifetime`, `uptime`, `channel_point` or `chan_id` key raises `KeyError` in the source. The model's channel record always has all four fields.
- The commented-out hard-coded channel list in `main` is dead code.
