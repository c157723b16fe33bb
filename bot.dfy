/** The bot: the stored post list, the once-a-minute poster tick, the
    scheduling form's submit handler and the owner-only slash commands. The
    GitHub file is the `Store` object, read and overwritten whole; Discord is
    reduced to what the code asks of it (which channels the cache holds,
    whether a thread creation raises, the text of each reply). */
module Bot {
  import opened Posts
  import opened ListCommand

  datatype Option<T> = None | Some(value: T)

  /** What the scheduling form was opened for. */
  datatype Mode = Add(channelId: ChannelId) | Edit(taskId: PostId)

  /** What a slash command answers with: a text reply or the form. */
  datatype Response = Reply(text: string) | OpenForm(mode: Mode)

  const NoPermission: string := "No permission."
  const FormatError: string := "Format Error. Use DD/MM/YY and HH:MM AM/PM"

  /** The schedule command: the owner gets an empty form for adding a post to
      the chosen forum, anyone else the permission error. */
  function Schedule(caller: string, forum: ChannelId): (r: Response)
    ensures r.OpenForm? <==> IsOwner(caller)
    ensures r.OpenForm? ==> r.mode == Add(forum)
    ensures r.Reply? ==> r.text == NoPermission
  {
    if IsOwner(caller) then OpenForm(Add(forum)) else Reply(NoPermission)
  }

  /** The indices, in increasing order, of the items among the first `n` of
      `data` that a tick tries to create a thread for: the due items whose
      channel the cache resolves. */
  function Attempts(data: seq<Post>, now: int, cached: set<ChannelId>, n: nat): seq<nat>
    requires n <= |data|
  {
    if n == 0 then []
    else Attempts(data, now, cached, n - 1) +
         (if IsDue(data[n - 1], now) && data[n - 1].channelId in cached then [n - 1] else [])
  }

  /** Each attempt is for a due item whose channel resolved, no item is
      attempted twice (the indices strictly increase), and every due item
      whose channel resolved is attempted. */
  lemma {:induction false} AttemptsExact(data: seq<Post>, now: int, cached: set<ChannelId>, n: nat)
    requires n <= |data|
    ensures forall j :: 0 <= j < |Attempts(data, now, cached, n)| ==>
      var i := Attempts(data, now, cached, n)[j];
      i < n && IsDue(data[i], now) && data[i].channelId in cached
    ensures forall j, l :: 0 <= j < l < |Attempts(data, now, cached, n)| ==>
      Attempts(data, now, cached, n)[j] < Attempts(data, now, cached, n)[l]
    ensures forall i :: 0 <= i < n && IsDue(data[i], now) && data[i].channelId in cached ==>
      i in Attempts(data, now, cached, n)
  {
    if n > 0 {
      AttemptsExact(data, now, cached, n - 1);
    }
  }

  /** The loop of one tick over a loaded list. `cached` is the set of channel
      ids the client's cache resolves; `raises[i]` says whether creating the
      thread for item i raises. Returns the list to write back, whether any
      item was due, and the indices of the items a thread creation was
      attempted for. */
  method Sweep(data: seq<Post>, now: int, cached: set<ChannelId>, raises: seq<bool>)
    returns (remaining: seq<Post>, updated: bool, attempted: seq<nat>)
    requires |raises| == |data|
    ensures remaining == Pending(data, now)
    ensures updated <==> !NoneDue(data, now)
    ensures attempted == Attempts(data, now, cached, |data|)
  {
    remaining, updated, attempted := [], false, [];
    for i := 0 to |data|
      invariant remaining == Pending(data[..i], now)
      invariant updated <==> !NoneDue(data[..i], now)
      invariant attempted == Attempts(data, now, cached, i)
    {
      var t := data[i];
      assert data[..i + 1] == data[..i] + [t];
      PendingAppend(data[..i], [t], now);
      NoneDueSnoc(data[..i], t, now);
      if IsDue(t, now) {
        if t.channelId in cached {
          attempted := attempted + [i];
          if !raises[i] {
            updated := true;
            continue;
          }
        }
        updated := true;
      } else {
        remaining := remaining + [t];
      }
    }
    assert data[..|data|] == data;
  }

  /** The edit loop of the form: every record whose id is `taskId` gets the
      new title, description, timestamp and readable text. */
  method ApplyEdit(data: seq<Post>, taskId: PostId, rev: Revision) returns (r: seq<Post>)
    ensures r == Edited(data, taskId, rev)
  {
    r := data;
    for i := 0 to |r|
      invariant |r| == |data|
      invariant forall k :: 0 <= k < i ==> r[k] == if data[k].id == taskId then Revise(data[k], rev) else data[k]
      invariant forall k :: i <= k < |r| ==> r[k] == data[k]
    {
      if r[i].id == taskId {
        r := r[i := Revise(r[i], rev)];
      }
    }
    if data != [] {
      EditedAt(data, taskId, rev, 0);
    }
    forall k | 0 <= k < |data| ensures r[k] == Edited(data, taskId, rev)[k] {
      EditedAt(data, taskId, rev, k);
    }
  }

  /** The stored JSON list. `writes` counts the whole-file overwrites. */
  class Store {
    var doc: seq<Post>
    var writes: nat

    constructor (initial: seq<Post>)
      ensures doc == initial && writes == 0
    {
      doc, writes := initial, 0;
    }

    /** What a read of the file yields: the stored list when the GET
        succeeds, and an empty list when it fails. */
    function Loaded(readOk: bool): seq<Post>
      reads this
    {
      if readOk then doc else []
    }

    /** Overwrites the stored list with `data`. */
    method Save(data: seq<Post>)
      modifies this
      ensures doc == data && writes == old(writes) + 1
    {
      doc, writes := data, writes + 1;
    }

    /** One tick at clock reading `now`: every due item of the list read is
        dropped whatever became of its thread, the pending items are written
        back in order, and the file is written only when something was due.
        `readOk` says whether the read succeeded; a failed read yields an
        empty list, so nothing is due and nothing is written. */
    method PosterLoop(readOk: bool, now: int, cached: set<ChannelId>, raises: seq<bool>)
      returns (attempted: seq<nat>)
      requires |raises| == |Loaded(readOk)|
      modifies this
      ensures NoneDue(old(Loaded(readOk)), now) ==> doc == old(doc) && writes == old(writes)
      ensures !NoneDue(old(Loaded(readOk)), now) ==>
        readOk && doc == Pending(old(doc), now) && writes == old(writes) + 1
      ensures attempted == Attempts(old(Loaded(readOk)), now, cached, |old(Loaded(readOk))|)
    {
      var data := Loaded(readOk);
      var remaining, updated;
      remaining, updated, attempted := Sweep(data, now, cached, raises);
      if updated {
        Save(remaining);
      }
    }

    /** Submission of the scheduling form. `parse` stands for parsing the
        date/time text as Paris local time (None when it does not parse).
        A text that does not parse changes nothing and reads nothing;
        otherwise the list is read (`readOk` says whether the read succeeded:
        a failed read yields an empty list), an add appends one record under
        `freshId` and an edit revises the matching records, and the result
        overwrites the file, so after a failed read every earlier post is
        lost. */
    method SubmitForm(mode: Mode, date: string, time: string, title: string, description: string,
                      parse: string -> Option<int>, freshId: PostId, readOk: bool)
      returns (reply: string)
      modifies this
      ensures parse(Readable(date, time)).None? ==>
        reply == FormatError && doc == old(doc) && writes == old(writes)
      ensures parse(Readable(date, time)).Some? ==> writes == old(writes) + 1
      ensures parse(Readable(date, time)).Some? && mode.Add? ==>
        doc == old(Loaded(readOk)) + [Post(freshId, mode.channelId, title, description,
                                parse(Readable(date, time)).value, Readable(date, time))] &&
        reply == "Scheduled. ID: " + freshId
      ensures parse(Readable(date, time)).Some? && mode.Add? && !readOk ==>
        doc == [Post(freshId, mode.channelId, title, description,
                     parse(Readable(date, time)).value, Readable(date, time))]
      ensures parse(Readable(date, time)).Some? && mode.Edit? && !readOk ==> doc == []
      ensures parse(Readable(date, time)).Some? && mode.Edit? ==>
        doc == Edited(old(Loaded(readOk)), mode.taskId,
                      Revision(title, description, parse(Readable(date, time)).value, Readable(date, time))) &&
        reply == "Updated: " + mode.taskId
    {
      var timeText := Readable(date, time);
      var parsed := parse(timeText);
      if parsed.None? {
        return FormatError;
      }
      var data := Loaded(readOk);
      match mode {
        case Add(channelId) =>
          data := data + [Post(freshId, channelId, title, description, parsed.value, timeText)];
          reply := "Scheduled. ID: " + freshId;
        case Edit(taskId) =>
          data := ApplyEdit(data, taskId, Revision(title, description, parsed.value, timeText));
          reply := "Updated: " + taskId;
      }
      Save(data);
    }

    /** The list command: the owner gets the listing, anyone else the
        permission error. Reads the file (`readOk` says whether the read
        succeeded; a failed read lists as empty) and changes nothing. */
    method ListPosts(caller: string, readOk: bool) returns (reply: string)
      ensures IsOwner(caller) && readOk ==> reply == Listing(doc)
      ensures IsOwner(caller) && !readOk ==> reply == NoPosts
      ensures !IsOwner(caller) ==> reply == NoPermission
    {
      if !IsOwner(caller) {
        return NoPermission;
      }
      var data := Loaded(readOk);
      reply := Listing(data);
    }

    /** The remove command: for the owner, every post with id `postId` is
        dropped from the list read and the result overwrites the file, even
        when no post had that id; after a failed read (`readOk` false) the
        file is overwritten with an empty list. Anyone else gets the
        permission error and nothing changes. */
    method RemovePost(caller: string, postId: PostId, readOk: bool) returns (reply: string)
      modifies this
      ensures IsOwner(caller) && readOk ==> doc == RemoveId(old(doc), postId)
      ensures IsOwner(caller) && !readOk ==> doc == []
      ensures IsOwner(caller) ==>
        doc == RemoveId(old(Loaded(readOk)), postId) && writes == old(writes) + 1 && reply == "Removed " + postId
      ensures !IsOwner(caller) ==>
        doc == old(doc) && writes == old(writes) && reply == NoPermission
    {
      if !IsOwner(caller) {
        return NoPermission;
      }
      Save(RemoveId(Loaded(readOk), postId));
      reply := "Removed " + postId;
    }
  }
}
