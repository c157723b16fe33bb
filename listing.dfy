/** The text the list command replies with. */
module ListCommand {
  import opened Posts

  const NoPosts: string := "No posts."
  const Header: string := "Scheduled Posts:\n"

  /** One line of the listing: id, title and readable date/time. */
  function Line(p: Post): string {
    "ID: " + p.id + " | " + p.title + " | " + p.readable
  }

  function Lines(s: seq<Post>): (r: seq<string>)
    ensures |r| == |s|
    ensures forall k :: 0 <= k < |s| ==> r[k] == Line(s[k])
  {
    if s == [] then [] else [Line(s[0])] + Lines(s[1..])
  }

  /** The lines glued together with a newline between each two. */
  function Join(lines: seq<string>): string {
    if |lines| == 0 then ""
    else if |lines| == 1 then lines[0]
    else lines[0] + "\n" + Join(lines[1..])
  }

  /** The reply: a fixed text for an empty list, otherwise a header followed
      by one line per post. */
  function Listing(s: seq<Post>): string {
    if s == [] then NoPosts else Header + Join(Lines(s))
  }

  /** `piece` occurs in `text` starting at position `at`. */
  ghost predicate OccursAt(text: string, piece: string, at: int) {
    0 <= at && at + |piece| <= |text| && text[at..at + |piece|] == piece
  }

  /** Where line k begins in `Join(lines)`: past each earlier line and its
      newline. */
  function Offset(lines: seq<string>, k: nat): nat
    requires k < |lines|
  {
    if k == 0 then 0 else |lines[0]| + 1 + Offset(lines[1..], k - 1)
  }

  /** Both halves of a concatenation occur in it where expected. */
  lemma OccursInConcat(a: string, b: string)
    ensures OccursAt(a + b, a, 0) && OccursAt(a + b, b, |a|)
  {
    assert (a + b)[..|a|] == a;
    assert (a + b)[|a|..] == b;
  }

  lemma OccursAfterPrefix(head: string, text: string, piece: string, at: int)
    requires OccursAt(text, piece, at)
    ensures OccursAt(head + text, piece, |head| + at)
  {
    assert (head + text)[|head| + at..|head| + at + |piece|] == text[at..at + |piece|];
  }

  lemma OccursAdjacent(text: string, a: string, b: string, at: int)
    requires OccursAt(text, a, at) && OccursAt(text, b, at + |a|)
    ensures OccursAt(text, a + b, at)
  {
    assert text[at..at + |a| + |b|] == text[at..at + |a|] + text[at + |a|..at + |a| + |b|];
  }

  /** Line k occurs in the joined text at its offset, and unless it is the
      last one a newline follows it and line k + 1 begins right after. */
  lemma {:induction false} JoinHasLine(lines: seq<string>, k: nat)
    requires k < |lines|
    ensures OccursAt(Join(lines), lines[k], Offset(lines, k))
    ensures k + 1 < |lines| ==>
      OccursAt(Join(lines), "\n", Offset(lines, k) + |lines[k]|) &&
      Offset(lines, k + 1) == Offset(lines, k) + |lines[k]| + 1
  {
    if |lines| == 1 {
      OccursInConcat(lines[0], "");
      assert lines[0] + "" == lines[0];
    } else {
      var head := lines[0] + "\n";
      var rest := Join(lines[1..]);
      assert Join(lines) == head + rest;
      if k == 0 {
        OccursInConcat(lines[0], "\n");
        OccursInConcat(head, rest);
        assert OccursAt(head + rest, lines[0], 0) by {
          assert (head + rest)[..|lines[0]|] == head[..|lines[0]|];
        }
        assert OccursAt(head + rest, "\n", |lines[0]|) by {
          assert (head + rest)[|lines[0]|..|lines[0]| + 1] == head[|lines[0]|..];
        }
      } else {
        JoinHasLine(lines[1..], k - 1);
        OccursAfterPrefix(head, rest, lines[k], Offset(lines[1..], k - 1));
        if k + 1 < |lines| {
          OccursAfterPrefix(head, rest, "\n", Offset(lines[1..], k - 1) + |lines[k]|);
        }
      }
    }
  }

  /** The joined text ends right where the last line ends: nothing follows
      the last line. */
  lemma {:induction false} JoinEndsAtLastLine(lines: seq<string>)
    requires |lines| > 0
    ensures |Join(lines)| == Offset(lines, |lines| - 1) + |lines[|lines| - 1]|
  {
    if |lines| > 1 {
      JoinEndsAtLastLine(lines[1..]);
      assert lines[1..][|lines[1..]| - 1] == lines[|lines| - 1];
    }
  }

  /** The empty-list reply is given exactly when the list is empty. */
  lemma ListingEmptyIff(s: seq<Post>)
    ensures Listing(s) == NoPosts <==> s == []
  {
    if s != [] {
      assert Listing(s)[0] == 'S' != NoPosts[0];
    }
  }

  /** The header followed by the joined lines shows every line, each one
      newline after the previous. */
  lemma HeaderedShowsLine(lines: seq<string>, k: nat)
    requires k < |lines|
    ensures OccursAt(Header + Join(lines), Header, 0)
    ensures OccursAt(Header + Join(lines), lines[k], |Header| + Offset(lines, k))
    ensures k + 1 < |lines| ==>
      OccursAt(Header + Join(lines), "\n" + lines[k + 1], |Header| + Offset(lines, k) + |lines[k]|)
  {
    var body := Join(lines);
    assert (Header + body)[..|Header|] == Header;
    JoinHasLine(lines, k);
    OccursAfterPrefix(Header, body, lines[k], Offset(lines, k));
    if k + 1 < |lines| {
      JoinHasLine(lines, k + 1);
      var nl := Offset(lines, k) + |lines[k]|;
      OccursAdjacent(body, "\n", lines[k + 1], nl);
      OccursAfterPrefix(Header, body, "\n" + lines[k + 1], nl);
    }
  }

  /** A non-empty listing starts with the header and shows the line of every
      post, in list order: the next post's line follows one newline later.
      With `ListingEndsAtLastPost` this fixes every character of the reply. */
  lemma ListingShowsPost(s: seq<Post>, k: nat)
    requires k < |s|
    ensures OccursAt(Listing(s), Header, 0)
    ensures OccursAt(Listing(s), Line(s[k]), |Header| + Offset(Lines(s), k))
    ensures k + 1 < |s| ==>
      OccursAt(Listing(s), "\n" + Line(s[k + 1]), |Header| + Offset(Lines(s), k) + |Line(s[k])|)
  {
    var lines := Lines(s);
    assert Listing(s) == Header + Join(lines);
    assert lines[k] == Line(s[k]);
    assert k + 1 < |s| ==> lines[k + 1] == Line(s[k + 1]);
    HeaderedShowsLine(lines, k);
  }

  /** A non-empty listing ends where the last post's line ends: nothing
      follows it. */
  lemma ListingEndsAtLastPost(s: seq<Post>)
    requires |s| > 0
    ensures |Listing(s)| == |Header| + Offset(Lines(s), |s| - 1) + |Line(s[|s| - 1])|
  {
    var lines := Lines(s);
    assert Listing(s) == Header + Join(lines);
    assert lines[|s| - 1] == Line(s[|s| - 1]);
    JoinEndsAtLastLine(lines);
  }
}
