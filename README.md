# Leaf's Helper: scheduled forum posts

This project models the core of a Discord bot that publishes scheduled forum
posts. The bot keeps one JSON file in a GitHub repository. The file holds a
plain list of records `{id, channel_id, title, description, timestamp,
readable}`. The model covers what `main.py` does to that list:

- the once-a-minute poster tick (`SimpleBot.poster_loop`);
- the submit handler of the scheduling form (`ForumModal.callback`), which
  adds a record or edits matching records;
- the `removepost` and `listposts` slash commands;
- the owner gate `check_user`, in front of `schedule`, `listposts` and
  `removepost`.

Layout:

- `posts.dfy`, module `Posts`: the `Post` record, the owner and due
  predicates, and the pure list transformations with their lemmas. These are
  the due/pending split of a tick, removal by id, the edit of matching
  records, and the readable date/time text.
- `listing.dfy`, module `ListCommand`: the reply text of `listposts`.
- `bot.dfy`, module `Bot`: the tick loop (`Sweep`), the edit loop
  (`ApplyEdit`) and the `Store` class. `Store` stands for the GitHub file.
  Its field `doc` is the stored list. Its field `writes` counts whole-file
  overwrites, so "the tick writes only when something was due" can be
  stated. The commands and the tick are methods of `Store`.

The environment becomes parameters:

- the tick's clock reading is an integer `now`, captured once per tick;
- the channel cache is a set `cached` of channel ids that `get_channel`
  resolves;
- whether `create_thread` raises for item `i` is `raises[i]`;
- date/time parsing is a function `parse` from the typed text to an optional
  timestamp;
- the generated id is `freshId`;
- whether the GitHub read succeeds is `readOk`. A failed read yields an
  empty list, as `load_data` does.

The model follows main.py as written:

- The tick resolves channels from the cache only. There is no remote fetch.
- The tick writes back the pending items of the snapshot it read. It does
  not re-filter the file as it is at write time.
- There is no version-token check and no retry. `save_data` fetches the
  current sha and overwrites blindly.
- Removing an id that no post carries still writes the file and still
  replies "Removed …". It is not reported as an error.
- The code has no scheduled plain messages, automod, autoroles or welcome
  handling, so none of these are modelled.

## Model

| member | source | states |
|---|---|---|
| Posts.PendingMembers | main.py:96-107 | a post survives a tick exactly when it is in the list and its timestamp is later than `now`; the boundary `timestamp == now` is due |
| Posts.PendingAppend | main.py:94-107 | the kept list distributes over concatenation, so the pending posts keep their original relative order |
| Posts.DueNeverKept | main.py:97-105 | every due post is absent from the list the tick writes back, and this does not depend on what happened to its thread |
| Posts.SplitIsPermutation | main.py:96-107 | the kept posts and the due posts together are exactly the loaded list, as a multiset |
| Posts.PendingKeepsAllIffNoneDue | main.py:94-110 | the tick keeps the whole list if and only if no post is due, and it never grows the list |
| Posts.NoneDueSnoc | main.py:102-105 | the `updated` flag after one more item: nothing is due in the longer list iff nothing was due before and the new item is not due |
| Posts.SecondTickIsQuiet | main.py:109-110 | nothing left by a tick is due at that tick's `now`, so a second tick at the same reading would write nothing |
| Posts.LaterTickSubsumes | main.py:90-110 | two ticks with non-decreasing clock readings keep what a single tick at the later reading keeps |
| Posts.RemoveMembers | main.py:137 | a post is kept by `removepost` exactly when it is in the list and its id differs from `post_id` |
| Posts.RemoveAppend | main.py:137 | removal distributes over concatenation, so the kept posts stay in order |
| Posts.RemoveAbsent | main.py:137 | removing an id that no post carries leaves the list unchanged |
| Posts.RemoveIdempotent | main.py:137 | removing the same id twice gives what removing it once gives |
| Posts.AddThenRemove | main.py:135-139 | removing the id of a record just appended under an id no other post has gives back the list before the append |
| Posts.EditedAt | main.py:75-77 | an edit keeps the length; a record whose id matches gets the new title, description, timestamp and readable text and keeps its id and channel; any other record is unchanged |
| Posts.EditAbsent | main.py:75-77 | an edit whose id matches no record changes nothing |
| Posts.EditIdempotent | main.py:75-77 | submitting the same edit twice gives what submitting it once gives |
| Posts.UpperAt | main.py:63 | upper-casing the time keeps its length, maps each character through ASCII upper-casing and leaves no lower-case ASCII letter |
| Posts.UpperIdempotent | main.py:63 | upper-casing twice is upper-casing once |
| Posts.ReadableShape | main.py:63 | the stored readable text is the date unchanged, one space, then the time upper-cased character by character |
| ListCommand.Lines | main.py:131 | there is one listing line per post, and line k shows the id, title and readable text of post k |
| ListCommand.JoinHasLine | main.py:131 | in the newline-joined text every line occurs at its offset, and a newline and then the next line follow it |
| ListCommand.JoinEndsAtLastLine | main.py:131 | the newline-joined text ends exactly where the last line ends, so nothing follows it |
| ListCommand.ListingEndsAtLastPost | main.py:131 | a non-empty listing ends exactly where the last post's line ends; with `ListingShowsPost` this fixes every character of the reply |
| ListCommand.ListingEmptyIff | main.py:130-131 | the reply is "No posts." if and only if the list is empty |
| ListCommand.ListingShowsPost | main.py:131 | a non-empty listing starts with the header "Scheduled Posts:" and a newline, shows every post's line, and shows them in list order, one newline apart |
| Bot.Schedule | main.py:115-124 | the schedule command opens the add form for the chosen forum if and only if the caller is the owner; anyone else gets "No permission." |
| Bot.AttemptsExact | main.py:96-101 | every thread attempt is for a due item whose channel resolved; no item is attempted twice; every due item whose channel resolved is attempted; pending items never are |
| Bot.Sweep | main.py:94-107 | the tick loop returns the pending items in order and `updated` iff some item was due; its attempts are the due items whose channel resolved, whatever the delivery outcomes |
| Bot.ApplyEdit | main.py:75-77 | the in-place edit loop yields the edited list described by `Posts.Edited` |
| Bot.Store.Save | main.py:29-45 | a save overwrites the whole stored list and counts one write |
| Bot.Store.PosterLoop | main.py:91-110 | a tick with nothing due in the list read leaves the file untouched and unwritten (a failed read among these cases); otherwise the read succeeded and the tick writes exactly the pending items, once; its thread attempts are those of `Sweep` on the list read |
| Bot.Store.SubmitForm | main.py:61-79 | a text that does not parse gives the format error and neither reads nor writes; otherwise the list read (empty after a failed read) is extended or edited and overwrites the file: an add appends one record with the given id, channel, title, description, parsed timestamp and readable text after the unchanged earlier ones, so after a failed read the file holds only the new record; an edit revises the matching records, so after a failed read the file becomes empty; both write once and reply with the id |
| Bot.Store.ListPosts | main.py:126-132 | the owner gets the listing of the stored list, or "No posts." after a failed read; anyone else gets "No permission."; nothing changes |
| Bot.Store.RemovePost | main.py:134-139 | for the owner, the file becomes the list read without the posts whose id is `post_id`, and so becomes empty after a failed read; it is written once even when no post matched, and the reply is "Removed <id>"; for anyone else nothing changes and the reply is "No permission." |

## Left out

- `load_data` / `save_data` transport (main.py:20-45): the GitHub REST calls, base64 and JSON encoding, the token header and the sha lookup are not modelled. The file is `Store.doc`, read and overwritten whole.
- Failed writes are not modelled: every `save_data` call overwrites the file. A failed read is modelled (`readOk`). Because `save_data` fetches the sha again on its own, a command that follows a failed read overwrites the file with a list built from `[]`.
- Date/time parsing and time zones (main.py:63-65, main.py:93): `strptime`, the Europe/Paris localisation and `.timestamp()` are library calls. They become the `parse` parameter and the integer `now`.
- Timestamps are integers. In the source they are float seconds, but the code only compares them.
- `Posts.Upper` models `str.upper` for ASCII letters only. Python also upper-cases other Unicode letters, and some of them change length.
- `uuid.uuid4()` (main.py:71) is nondeterministic. The new id is the parameter `freshId`, and nothing makes it unique, as in the source.
- The edit branch is modelled, but no command in main.py opens the form in edit mode. The form's `task_id` default of `None` is not modelled: `Mode.Edit` always carries an id string.
- Discord wiring: the form fields and their length limits, slash-command registration, `send_message`/`send_modal`, `on_ready`, the one-minute `tasks.loop` timer, `keep_alive` and `bot.run` (main.py:48-59, main.py:82-88, main.py:112-113, main.py:141-142). Reply texts are modelled as return values. The order of reply and save inside the callback is not modelled.
- Interleaving on the event loop: a tick writes back the snapshot it read, so a post added while the tick awaits a thread creation can be overwritten. This concurrency effect of the I/O layer is not modelled; each method runs alone.
- Exceptions other than the parse failure and `create_thread` raising are not modelled, for example `requests` raising a network error inside `load_data` or `save_data`.
