/** The scheduled-post document of the bot and the pure transformations on it:
    the due/pending split of a scheduler tick, removal by id, and the edit
    of matching records. Everything here is a function of the stored list. */
module Posts {

  type PostId = string
  type ChannelId = int

  /** One record of the stored JSON list. `timestamp` is the UTC instant in
      seconds (a float in the source; only ever compared, so an int here) and
      `readable` is the date/time text the owner typed. */
  datatype Post = Post(
    id: PostId,
    channelId: ChannelId,
    title: string,
    description: string,
    timestamp: int,
    readable: string)

  /** The one account whose commands are obeyed. */
  const OwnerName: string := "simplyieaf"

  predicate IsOwner(name: string) {
    name == OwnerName
  }

  /** A post is due once the tick's clock reading has reached its timestamp;
      the boundary `timestamp == now` is due. */
  predicate IsDue(p: Post, now: int) {
    now >= p.timestamp
  }

  predicate NoneDue(s: seq<Post>, now: int) {
    forall i :: 0 <= i < |s| ==> !IsDue(s[i], now)
  }

  // ---------------------------------------------------------------------------
  // Scheduler tick: the list it writes back

  /** Extending a list by one post: nothing is due in the longer list exactly
      when nothing was due before and the new post is not due. */
  lemma NoneDueSnoc(s: seq<Post>, p: Post, now: int)
    ensures NoneDue(s + [p], now) <==> NoneDue(s, now) && !IsDue(p, now)
  {
    if NoneDue(s + [p], now) {
      assert (s + [p])[|s|] == p;
      forall i | 0 <= i < |s| ensures !IsDue(s[i], now) {
        assert (s + [p])[i] == s[i];
      }
    }
  }

  /** The posts a tick keeps: those not yet due, in their original order. */
  function Pending(s: seq<Post>, now: int): seq<Post> {
    if s == [] then []
    else (if IsDue(s[0], now) then [] else [s[0]]) + Pending(s[1..], now)
  }

  /** The due posts, which a tick drops, in their original order. */
  function DueItems(s: seq<Post>, now: int): seq<Post> {
    if s == [] then []
    else (if IsDue(s[0], now) then [s[0]] else []) + DueItems(s[1..], now)
  }

  /** Keeping the pending posts distributes over concatenation: the kept
      posts stay in their original relative order. */
  lemma {:induction false} PendingAppend(a: seq<Post>, b: seq<Post>, now: int)
    ensures Pending(a + b, now) == Pending(a, now) + Pending(b, now)
  {
    if a == [] {
      assert a + b == b;
    } else {
      assert (a + b)[0] == a[0];
      assert (a + b)[1..] == a[1..] + b;
      PendingAppend(a[1..], b, now);
    }
  }

  /** A post survives a tick exactly when it is in the list and not due. */
  lemma {:induction false} PendingMembers(s: seq<Post>, now: int, p: Post)
    ensures p in Pending(s, now) <==> p in s && !IsDue(p, now)
  {
    if s != [] {
      PendingMembers(s[1..], now, p);
      assert p in s <==> p == s[0] || p in s[1..];
    }
  }

  /** Every due post is absent from the list a tick writes back. */
  lemma {:induction false} DueNeverKept(s: seq<Post>, now: int, i: int)
    requires 0 <= i < |s| && IsDue(s[i], now)
    ensures s[i] !in Pending(s, now)
  {
    PendingMembers(s, now, s[i]);
  }

  /** The kept and the due posts together are exactly the input list. */
  lemma {:induction false} SplitIsPermutation(s: seq<Post>, now: int)
    ensures multiset(Pending(s, now)) + multiset(DueItems(s, now)) == multiset(s)
  {
    if s != [] {
      SplitIsPermutation(s[1..], now);
      assert s == [s[0]] + s[1..];
    }
  }

  /** The tick keeps the whole list if and only if nothing is due. */
  lemma {:induction false} PendingKeepsAllIffNoneDue(s: seq<Post>, now: int)
    ensures Pending(s, now) == s <==> NoneDue(s, now)
    ensures |Pending(s, now)| <= |s|
  {
    if s != [] {
      PendingKeepsAllIffNoneDue(s[1..], now);
      if IsDue(s[0], now) {
        assert !NoneDue(s, now);
        assert |Pending(s, now)| < |s|;
      } else {
        assert NoneDue(s, now) <==> NoneDue(s[1..], now) by {
          if NoneDue(s[1..], now) {
            forall i | 0 <= i < |s| ensures !IsDue(s[i], now) {
              if i > 0 { assert s[i] == s[1..][i - 1]; }
            }
          }
          if NoneDue(s, now) {
            forall i | 0 <= i < |s[1..]| ensures !IsDue(s[1..][i], now) {
              assert s[1..][i] == s[i + 1];
            }
          }
        }
        assert s == [s[0]] + s[1..];
      }
    }
  }

  /** Nothing left after a tick is due at that tick's clock reading, so a
      second tick at the same reading writes nothing. */
  lemma {:induction false} SecondTickIsQuiet(s: seq<Post>, now: int)
    ensures NoneDue(Pending(s, now), now)
  {
    forall i | 0 <= i < |Pending(s, now)| ensures !IsDue(Pending(s, now)[i], now) {
      PendingMembers(s, now, Pending(s, now)[i]);
    }
  }

  /** Two ticks in a row with non-decreasing clock readings keep what a single
      tick at the later reading keeps. */
  lemma {:induction false} LaterTickSubsumes(s: seq<Post>, now1: int, now2: int)
    requires now1 <= now2
    ensures Pending(Pending(s, now1), now2) == Pending(s, now2)
  {
    if s != [] {
      LaterTickSubsumes(s[1..], now1, now2);
      var head := if IsDue(s[0], now1) then [] else [s[0]];
      PendingAppend(head, Pending(s[1..], now1), now2);
    }
  }

  // ---------------------------------------------------------------------------
  // removepost

  /** The list without every post whose id is `postId`, in order. */
  function RemoveId(s: seq<Post>, postId: PostId): seq<Post> {
    if s == [] then []
    else (if s[0].id == postId then [] else [s[0]]) + RemoveId(s[1..], postId)
  }

  /** A post is kept exactly when it is in the list with a different id. */
  lemma {:induction false} RemoveMembers(s: seq<Post>, postId: PostId, p: Post)
    ensures p in RemoveId(s, postId) <==> p in s && p.id != postId
  {
    if s != [] {
      RemoveMembers(s[1..], postId, p);
      assert p in s <==> p == s[0] || p in s[1..];
    }
  }

  /** Removal keeps the relative order of what it keeps. */
  lemma {:induction false} RemoveAppend(a: seq<Post>, b: seq<Post>, postId: PostId)
    ensures RemoveId(a + b, postId) == RemoveId(a, postId) + RemoveId(b, postId)
  {
    if a == [] {
      assert a + b == b;
    } else {
      assert (a + b)[0] == a[0];
      assert (a + b)[1..] == a[1..] + b;
      RemoveAppend(a[1..], b, postId);
    }
  }

  /** Removing an id that no post carries leaves the list as it was. */
  lemma {:induction false} RemoveAbsent(s: seq<Post>, postId: PostId)
    requires forall i :: 0 <= i < |s| ==> s[i].id != postId
    ensures RemoveId(s, postId) == s
  {
    if s != [] {
      RemoveAbsent(s[1..], postId);
      assert s == [s[0]] + s[1..];
    }
  }

  /** Removing the same id twice is the same as removing it once. */
  lemma {:induction false} RemoveIdempotent(s: seq<Post>, postId: PostId)
    ensures RemoveId(RemoveId(s, postId), postId) == RemoveId(s, postId)
  {
    if s != [] {
      RemoveIdempotent(s[1..], postId);
      var head := if s[0].id == postId then [] else [s[0]];
      RemoveAppend(head, RemoveId(s[1..], postId), postId);
    }
  }

  /** Removing the id of a post just appended under a fresh id undoes the
      append. */
  lemma {:induction false} AddThenRemove(s: seq<Post>, p: Post)
    requires forall i :: 0 <= i < |s| ==> s[i].id != p.id
    ensures RemoveId(s + [p], p.id) == s
  {
    RemoveAppend(s, [p], p.id);
    RemoveAbsent(s, p.id);
    assert RemoveId([p], p.id) == [];
  }

  // ---------------------------------------------------------------------------
  // The edit branch of the scheduling form

  /** The new field values an edit writes into a matching record. */
  datatype Revision = Revision(title: string, description: string, timestamp: int, readable: string)

  /** One record after an edit: the four mutable fields replaced, `id` and
      `channelId` kept. */
  function Revise(p: Post, rev: Revision): Post {
    p.(title := rev.title, description := rev.description,
       timestamp := rev.timestamp, readable := rev.readable)
  }

  /** The list after every record whose id is `taskId` has been revised. */
  function Edited(s: seq<Post>, taskId: PostId, rev: Revision): seq<Post> {
    if s == [] then []
    else [if s[0].id == taskId then Revise(s[0], rev) else s[0]] + Edited(s[1..], taskId, rev)
  }

  /** The edit keeps the length; at each position a matching record gets the
      new title, description, timestamp and readable text and keeps its id
      and channel, and any other record is unchanged. */
  lemma {:induction false} EditedAt(s: seq<Post>, taskId: PostId, rev: Revision, k: int)
    requires 0 <= k < |s|
    ensures |Edited(s, taskId, rev)| == |s|
    ensures s[k].id == taskId ==>
      Edited(s, taskId, rev)[k] == Post(s[k].id, s[k].channelId, rev.title, rev.description, rev.timestamp, rev.readable)
    ensures s[k].id != taskId ==> Edited(s, taskId, rev)[k] == s[k]
  {
    if k > 0 {
      EditedAt(s[1..], taskId, rev, k - 1);
    } else if |s| > 1 {
      EditedAt(s[1..], taskId, rev, 0);
    }
  }

  /** An edit whose id matches no record changes nothing. */
  lemma {:induction false} EditAbsent(s: seq<Post>, taskId: PostId, rev: Revision)
    requires forall i :: 0 <= i < |s| ==> s[i].id != taskId
    ensures Edited(s, taskId, rev) == s
  {
    if s != [] {
      EditAbsent(s[1..], taskId, rev);
      assert s == [s[0]] + s[1..];
    }
  }

  /** Submitting the same edit twice gives what submitting it once gives. */
  lemma {:induction false} EditIdempotent(s: seq<Post>, taskId: PostId, rev: Revision)
    ensures Edited(Edited(s, taskId, rev), taskId, rev) == Edited(s, taskId, rev)
  {
    if s != [] {
      EditIdempotent(s[1..], taskId, rev);
    }
  }

  // ---------------------------------------------------------------------------
  // The readable text stored with a post

  /** ASCII upper-casing of one character. */
  function UpperChar(c: char): char {
    if 'a' <= c <= 'z' then (c as int - 32) as char else c
  }

  /** ASCII upper-casing of a string. */
  function Upper(s: string): string {
    if s == [] then [] else [UpperChar(s[0])] + Upper(s[1..])
  }

  /** Upper-casing keeps the length, maps every character through `UpperChar`,
      and leaves no lower-case ASCII letter behind. */
  lemma {:induction false} UpperAt(s: string, k: int)
    requires 0 <= k < |s|
    ensures |Upper(s)| == |s|
    ensures Upper(s)[k] == UpperChar(s[k])
    ensures !('a' <= Upper(s)[k] <= 'z')
  {
    if k > 0 {
      UpperAt(s[1..], k - 1);
    } else if |s| > 1 {
      UpperAt(s[1..], 0);
    }
  }

  /** Upper-casing twice is upper-casing once. */
  lemma {:induction false} UpperIdempotent(s: string)
    ensures Upper(Upper(s)) == Upper(s)
  {
    if s != [] {
      UpperIdempotent(s[1..]);
    }
  }

  /** The text the form builds from its date and time fields, both parsed and
      stored: the date, one space, the upper-cased time. */
  function Readable(date: string, time: string): string {
    date + " " + Upper(time)
  }

  /** The readable text is the date unchanged, a space, then the time with
      every character upper-cased and nothing else altered. */
  lemma ReadableShape(date: string, time: string)
    ensures |Readable(date, time)| == |date| + 1 + |time|
    ensures Readable(date, time)[..|date|] == date && Readable(date, time)[|date|] == ' '
    ensures forall k :: 0 <= k < |time| ==> Readable(date, time)[|date| + 1 + k] == UpperChar(time[k])
  {
    if time == [] {
      assert Upper(time) == [];
    } else {
      UpperAt(time, 0);
    }
    forall k | 0 <= k < |time|
      ensures Readable(date, time)[|date| + 1 + k] == UpperChar(time[k])
    {
      UpperAt(time, k);
    }
  }
}
