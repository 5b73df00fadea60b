# OpenHands monitor bot: the poll-and-notify cycle

The bot polls the OpenHands conversations endpoint. It keeps a dictionary of
the last-seen status of each conversation id and sends a Telegram notice when
a conversation appears or its status changes. This project models one cycle
of that loop. The cycle takes the fetched list and produces the notices it
sends and the dictionary it leaves behind. The project also models the
startup configuration check.

- `types.dfy` (`Types`): a conversation record `Conv` with an id, an optional
  title and an optional status. It also defines the notices `Msg`
  (`NewTask(title, id)` and `StatusUpdate(title, status)`) and the defaults
  "Untitled" and "UNKNOWN".
- `cycle_spec.dfy` (`CycleSpec`): the pure specification of a cycle. `Notice`
  is what one record triggers against the map as it stands. `StateAfter` and
  `Emitted` cover a whole list visited in order. `Cycle` adds the skip of a
  failed or empty fetch and the silent pruning of absent ids. `Run` is a
  bounded sequence of cycles.
- `cycle_props.dfy` (`CycleProps`): the lemmas about `Cycle` and `Run`.
- `monitor.dfy` (`Monitor`): the class `Monitor`. Its field `states` is the
  module-level dictionary. `PollCycle` runs the cycle in place, with a loop
  over the records, and then `DropStale` deletes stale keys in a second loop. It is proved
  equal to `Cycle`. `PollLoop` runs a bounded number of cycles and is proved
  equal to `Run`.
- `config.dfy` (`Config`): the requirement that token and chat id both be set.

Points where the code differs from a textbook state differ, and which the
model follows:

- No removal notice is sent. Ids absent from a snapshot are only deleted
  (`CycleProps.DroppedIdsAreSilent`).
- An empty list is falsy, like a failed fetch. The cycle is skipped and
  nothing is cleared. A textbook differ would remove every tracked id here.
- The status is written right after a record's notice. So a second record
  with the same id in one list is compared with the first record, not with
  the map as it stood before the cycle (`CycleProps.RepeatedIdComparedWithPrevious`).
- Polling the same list twice is silent the second time exactly when
  duplicate records of one id agree on the status
  (`CycleProps.SecondPollSilentIffConsistent`).
  `CycleProps.DuplicateIdsBreakIdempotence` gives a list where it is not.
- A status-update notice carries the title and the new status. It carries
  neither the id nor the old status.

## Model

| member | source | states |
|---|---|---|
| `Monitor.Monitor.constructor` | bot.py:15 | the bot starts with no conversation tracked |
| `Monitor.Monitor.PollCycle` | bot.py:49-74 | one cycle in place returns exactly the notices of `Cycle` and leaves exactly its map; a failed or empty fetch sends nothing and changes nothing; otherwise the keys are exactly the snapshot's ids |
| `Monitor.Monitor.PollLoop` | bot.py:47-51 | a bounded run of the polling loop sends the notices of each cycle in turn and ends with the map of the last cycle, as `Run` says |
| `Types.TitleOf` | bot.py:56 | the title is the record's own, or "Untitled" when the key is absent; its use is stated by `CycleProps.NewIdAnnounced` |
| `Types.StatusOf` | bot.py:57 | the status is the record's own, or "UNKNOWN" when the key is absent; its use is stated by `CycleProps.CycleRecordsLastStatus` |
| `CycleSpec.Notice` | bot.py:60-69 | a record is silent exactly when its id is tracked with an equal status; it is announced as a new task exactly when its id is untracked; every notice carries the record's title, a new task its id and an update the new status |
| `CycleSpec.Record` | bot.py:60-69 | writing the status only alongside a notice leaves the same map as always writing the record's status |
| `CycleSpec.Emitted` | bot.py:54-69 | the cycle judges every record of the list, one outcome per record |
| `CycleSpec.Sent` | bot.py:63-68 | each record sends at most one notice |
| `CycleSpec.IdsSnoc` | bot.py:53-58 | each record adds exactly its id to the set of current ids |
| `CycleSpec.StateAfter` | bot.py:54-69 | the map after the records are visited in order; its keys are stated by `CycleSpec.StateAfterKeys`, its values by `CycleProps.StateAfterLast` and `CycleProps.StateAfterShape` |
| `CycleSpec.StateAfterKeys` | bot.py:58-69 | visiting the records adds exactly their ids to the map |
| `CycleSpec.Prune` | bot.py:72-74 | keeps exactly the entries whose id is current, with their values |
| `CycleSpec.Cycle` | bot.py:50-74 | a skipped snapshot sends nothing and keeps the map; otherwise the keys afterwards are exactly the snapshot's ids and at most one notice is sent per record |
| `CycleSpec.Run` | bot.py:47-51 | a run in which every poll is skipped sends nothing and keeps the map |
| `CycleProps.EmittedAt` | bot.py:54-69 | record `i` is judged against the map left by the records before it |
| `CycleProps.StateAfterShape` | bot.py:58-69 | visiting the records adds exactly their ids and leaves other entries untouched |
| `CycleProps.StateAfterLast` | bot.py:60-69 | after the records, an id holds the status of its last record |
| `CycleProps.UntouchedBefore` | bot.py:60-65 | at an id's first record, the map holds for it what it held before the cycle |
| `CycleProps.NewIdAnnounced` | bot.py:56-64 | an untracked id's first record triggers a new-task notice with its title ("Untitled" when missing) and its id |
| `CycleProps.TrackedIdComparedWithStored` | bot.py:57-69 | a tracked id is silent when its status equals the stored one, and otherwise triggers a status update with the new status |
| `CycleProps.RepeatedIdComparedWithPrevious` | bot.py:60-69 | a repeated id is compared with its previous record in the same list; differing duplicates trigger a status update |
| `CycleProps.DistinctIdsJudgedAgainstStart` | bot.py:54-69 | with distinct ids, every record is judged against the map as it was before the cycle |
| `CycleProps.OneNewTaskPerNewId` | bot.py:60-64 | every id new to the map gets exactly one new-task notice per cycle; a tracked id gets none |
| `CycleProps.SentAt` | bot.py:54-69 | the notice of record `i` is sent at the position given by the number of notices before it |
| `CycleProps.NoticesInSnapshotOrder` | bot.py:54-69 | an earlier record's notice is sent before a later record's notice |
| `CycleProps.CycleRecordsLastStatus` | bot.py:57-69 | after a cycle on a non-empty list each id holds the status of its last record ("UNKNOWN" when missing) |
| `Monitor.Monitor.DropStale` | bot.py:71-74 | deleting over a snapshot of the keys leaves exactly the entries whose id is current, with their values |
| `CycleProps.ForgetUntrackedState` | bot.py:60-69 | an id not in the list keeps its entry through the records, and only its own entry differs |
| `CycleProps.ForgetUntracked` | bot.py:60-69 | an id not in the list has no effect on the notices the records trigger |
| `CycleProps.DroppedIdsAreSilent` | bot.py:72-74 | an id absent from the list is deleted, and the notices are exactly those sent had it never been tracked |
| `CycleProps.SkippedSnapshotChangesNothing` | bot.py:49-51 | a failed fetch or an empty list sends nothing and leaves the map unchanged |
| `CycleProps.ConsistentStateAfter` | bot.py:60-69 | when duplicates agree, every record's id ends up holding that record's status |
| `CycleProps.StableMapIsSilent` | bot.py:60-69 | a map that already holds every record's status triggers nothing and is left as it is |
| `CycleProps.SecondPollIsSilent` | bot.py:53-74 | polling the same list again sends nothing and keeps the map, provided duplicates of one id agree on the status |
| `CycleProps.SilentMeansStable` | bot.py:60-69 | if visiting the records sends nothing, every record's id is already tracked with that record's status |
| `CycleProps.SecondPollSilentIffConsistent` | bot.py:53-74 | polling the same list again is silent exactly when duplicates of one id agree on the status |
| `CycleProps.DuplicateIdsBreakIdempotence` | bot.py:60-69 | two records of one id with statuses "X" then "Y" trigger a new task and an update, and on the next poll two updates |
| `CycleProps.SkippedPollAtEnd` | bot.py:49-51 | a skipped poll at the end of a run changes nothing |
| `CycleProps.SkippedPollIsInvisible` | bot.py:47-51 | a skipped poll, failed fetch or empty list, anywhere in a run changes neither the notices nor the final map |
| `Config.AllTruthy` | bot.py:78 | Python's `all` over the settings is true exactly when every setting is present and non-empty |
| `Config.Start` | bot.py:78-79 | startup goes online exactly when token and chat id are each truthy; an absent or empty token or chat id is a configuration error |

## Left out

- Fetching the conversations over HTTP (bot.py:29-40) is network I/O. The fetched list is an input, and `None` stands for a fetch that failed with an HTTP status error or a request error, the two cases bot.py:36-40 turns into `None`.
- A response body that is not valid JSON is not modelled. `response.json()` (bot.py:35) then raises a `ValueError` that neither handler at bot.py:36-39 catches. It leaves the polling loop and `main`, and bot.py:89-90 reports it as a configuration error; the bot stops.
- A body that is JSON but not a list of objects is not modelled either.
- Sending to Telegram and the retry decorator (three attempts, two seconds apart; bot.py:20-27) are foreign library code. A send is modelled as appending to the returned notices and always succeeds.
- A send that still fails after its three attempts is not modelled. Its exception has no handler in the polling loop (bot.py:47-69), in `main`, or at bot.py:87-90, which catches only `KeyboardInterrupt`, `SystemExit` and `ValueError`. So it ends the bot, not just the current cycle.
- The endless loop, the sleep between polls and the asyncio driver (bot.py:47-48, 84-90) are scheduling. `PollLoop` and `Run` cover a bounded number of polls.
- Reading the environment (bot.py:9-12) and building the Bot object (bot.py:18) are process bootstrap. `Config.Start` takes the two settings as parameters.
- The text of the notices, with emoji and formatting (bot.py:62, 67, 81), is not modelled. Notices are values that carry the fields the text is built from. The "online" announcement is the `Online` outcome of `Config.Start`.
- Conversation ids are modelled as strings. The JSON may carry other scalar types, and Python compares those by value in the same way.
- A record without an `id` key raises `KeyError` in the source, which ends the bot like a failed send. The model's records always have an id.
- Titles and statuses are taken to be strings when present. `conv.get` (bot.py:56-57) falls back to "Untitled" or "UNKNOWN" only when the key is absent. A key present with JSON `null` or another non-string value is used as it is. A null status, for example, is stored as `None` and announced as "is now None". `Option<string>` cannot represent such a value, so it is not defaulted in the model and not modelled.
