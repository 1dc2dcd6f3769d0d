/**
 * Pieces of disaster information ("claims") shown in the verified and the
 * pending columns of the dashboard, and the pure list transformations that
 * the vote and verify handlers apply to them.
 */
module Claims {
  import opened Wrappers

  /** One entry of `verifiedInfo` or `pendingInfo`. */
  datatype Info = Info(id: int, text: string, upvotes: nat, downvotes: nat)

  /** No two entries of `s` carry the same id (React keys the list items by id). */
  ghost predicate UniqueIds(s: seq<Info>) {
    forall i, j :: 0 <= i < j < |s| ==> s[i].id != s[j].id
  }

  // ---------------------------------------------------------------------------
  // Voting
  // ---------------------------------------------------------------------------

  /** The counter a vote of type `voteType` raises: `'up'` raises upvotes, anything else downvotes. */
  function Bump(info: Info, voteType: string): Info {
    if voteType == "up" then info.(upvotes := info.upvotes + 1)
    else info.(downvotes := info.downvotes + 1)
  }

  /**
   * `updateVotes`: every entry whose id is `id` gets one more vote of the given
   * type; every other entry, the length and the order stay as they were.
   */
  function UpdateVotes(infos: seq<Info>, id: int, voteType: string): (r: seq<Info>)
    ensures |r| == |infos|
    ensures forall k :: 0 <= k < |r| ==> r[k].id == infos[k].id && r[k].text == infos[k].text
    ensures forall k :: 0 <= k < |r| && infos[k].id == id && voteType == "up" ==>
      r[k].upvotes == infos[k].upvotes + 1 && r[k].downvotes == infos[k].downvotes
    ensures forall k :: 0 <= k < |r| && infos[k].id == id && voteType != "up" ==>
      r[k].downvotes == infos[k].downvotes + 1 && r[k].upvotes == infos[k].upvotes
    ensures forall k :: 0 <= k < |r| && infos[k].id != id ==> r[k] == infos[k]
  {
    if infos == [] then []
    else [if infos[0].id == id then Bump(infos[0], voteType) else infos[0]]
         + UpdateVotes(infos[1..], id, voteType)
  }

  /** Two votes, on any ids and of any types, give the same list in either order. */
  lemma {:induction false} VotesCommute(s: seq<Info>, i: int, t: string, j: int, u: string)
    ensures UpdateVotes(UpdateVotes(s, i, t), j, u) == UpdateVotes(UpdateVotes(s, j, u), i, t)
  {
    if s != [] {
      VotesCommute(s[1..], i, t, j, u);
      assert UpdateVotes(s, i, t)[1..] == UpdateVotes(s[1..], i, t);
      assert UpdateVotes(s, j, u)[1..] == UpdateVotes(s[1..], j, u);
    }
  }

  /** A vote keeps the ids, so it keeps them unique across a list made of several parts. */
  lemma VotePreservesUniqueIds(before: seq<Info>, voted: seq<Info>, after: seq<Info>, id: int, voteType: string)
    requires UniqueIds(before + voted + after)
    ensures UniqueIds(before + UpdateVotes(voted, id, voteType) + after)
  {
    var s := before + voted + after;
    var t := before + UpdateVotes(voted, id, voteType) + after;
    assert forall k :: 0 <= k < |s| ==> t[k].id == s[k].id;
  }

  /** Number of `'up'` votes in a series of vote types. */
  function UpCount(types: seq<string>): (n: nat)
    ensures n <= |types|
  {
    if types == [] then 0 else (if types[0] == "up" then 1 else 0) + UpCount(types[1..])
  }

  /** The list after the votes `types` on `id`, cast one after another. */
  function ApplyVotes(infos: seq<Info>, id: int, types: seq<string>): seq<Info>
    decreases |types|
  {
    if types == [] then infos else ApplyVotes(UpdateVotes(infos, id, types[0]), id, types[1..])
  }

  /**
   * Casting a series of votes on `id` raises the upvotes of each entry with
   * that id by the number of `'up'` votes and its downvotes by the number of
   * the others, whatever their order; entries with other ids do not change.
   */
  lemma {:induction false} VoteTally(infos: seq<Info>, id: int, types: seq<string>)
    ensures |ApplyVotes(infos, id, types)| == |infos|
    ensures forall k :: 0 <= k < |infos| && infos[k].id == id ==>
      ApplyVotes(infos, id, types)[k] ==
        infos[k].(upvotes := infos[k].upvotes + UpCount(types),
                  downvotes := infos[k].downvotes + |types| - UpCount(types))
    ensures forall k :: 0 <= k < |infos| && infos[k].id != id ==> ApplyVotes(infos, id, types)[k] == infos[k]
    decreases |types|
  {
    if types != [] {
      var next := UpdateVotes(infos, id, types[0]);
      VoteTally(next, id, types[1..]);
    }
  }

  // ---------------------------------------------------------------------------
  // Finding and removing by id
  // ---------------------------------------------------------------------------

  /** `prev.find(info => info.id === id)`, as the index of the first match. */
  function FindIndex(infos: seq<Info>, id: int): (r: Option<nat>)
    ensures r.Some? ==> r.value < |infos| && infos[r.value].id == id &&
                        forall j :: 0 <= j < r.value ==> infos[j].id != id
    ensures r.None? ==> forall j :: 0 <= j < |infos| ==> infos[j].id != id
  {
    if infos == [] then None
    else if infos[0].id == id then Some(0)
    else match FindIndex(infos[1..], id)
      case None => None
      case Some(k) => Some(k + 1)
  }

  /** `prev.filter(info => info.id !== id)`. */
  function WithoutId(infos: seq<Info>, id: int): (r: seq<Info>)
    ensures |r| <= |infos|
    ensures forall k :: 0 <= k < |r| ==> r[k].id != id
  {
    if infos == [] then []
    else (if infos[0].id == id then [] else [infos[0]]) + WithoutId(infos[1..], id)
  }

  /** The filter keeps exactly the entries whose id is not the removed one. */
  lemma {:induction false} WithoutIdMembers(infos: seq<Info>, id: int)
    ensures forall x :: x in WithoutId(infos, id) <==> x in infos && x.id != id
  {
    if infos != [] {
      WithoutIdMembers(infos[1..], id);
      assert infos == [infos[0]] + infos[1..];
    }
  }

  /** Filtering distributes over concatenation: the kept entries stay in their order. */
  lemma {:induction false} WithoutIdAppend(a: seq<Info>, b: seq<Info>, id: int)
    ensures WithoutId(a + b, id) == WithoutId(a, id) + WithoutId(b, id)
  {
    if a == [] {
      assert a + b == b;
    } else {
      assert (a + b)[1..] == a[1..] + b;
      WithoutIdAppend(a[1..], b, id);
    }
  }

  /** Filtering out an id that no entry carries changes nothing. */
  lemma {:induction false} WithoutAbsentId(s: seq<Info>, id: int)
    requires forall k :: 0 <= k < |s| ==> s[k].id != id
    ensures WithoutId(s, id) == s
  {
    if s != [] {
      WithoutAbsentId(s[1..], id);
      assert [s[0]] + s[1..] == s;
    }
  }

  // ---------------------------------------------------------------------------
  // Verifying
  // ---------------------------------------------------------------------------

  /**
   * `handleVerifyInfo`, with an absent id treated as a no-op: the first
   * pending entry with id `id` is appended to the verified list, and every
   * pending entry with that id leaves the pending list. Result: (verified, pending).
   */
  function Verify(verified: seq<Info>, pending: seq<Info>, id: int): (r: (seq<Info>, seq<Info>))
    ensures forall k :: 0 <= k < |r.1| ==> r.1[k].id != id
    ensures r.1 == WithoutId(pending, id)
    ensures FindIndex(pending, id).Some? ==>
      r.0 == verified + [pending[FindIndex(pending, id).value]]
    ensures FindIndex(pending, id).None? ==> r == (verified, pending)
  {
    match FindIndex(pending, id)
    case None =>
      WithoutAbsentId(pending, id);
      (verified, pending)
    case Some(k) => (verified + [pending[k]], WithoutId(pending, id))
  }

  /** Verifying the same id twice is the same as verifying it once. */
  lemma VerifyIdempotent(verified: seq<Info>, pending: seq<Info>, id: int)
    ensures Verify(Verify(verified, pending, id).0, Verify(verified, pending, id).1, id)
            == Verify(verified, pending, id)
  {
  }

  /** Before the first match no entry carries the id. */
  lemma WithoutIdBeforeFirst(pending: seq<Info>, k: nat, id: int)
    requires FindIndex(pending, id) == Some(k)
    ensures WithoutId(pending[..k], id) == pending[..k]
  {
    WithoutAbsentId(pending[..k], id);
  }

  /** When no later entry carries the id, filtering leaves the entries after the first match alone. */
  lemma WithoutIdAfterFirst(pending: seq<Info>, k: nat, id: int)
    requires k < |pending|
    requires forall j :: k < j < |pending| ==> pending[j].id != id
    ensures WithoutId(pending[k + 1..], id) == pending[k + 1..]
  {
    var post := pending[k + 1..];
    assert forall j :: 0 <= j < |post| ==> post[j] == pending[k + 1 + j];
    WithoutAbsentId(post, id);
  }

  /** When `id` occurs in pending, pending is its prefix before the first match, the match, and the rest. */
  lemma SplitAtFirst(pending: seq<Info>, k: nat, id: int)
    requires FindIndex(pending, id) == Some(k)
    requires forall j :: k < j < |pending| ==> pending[j].id != id
    ensures pending == pending[..k] + [pending[k]] + pending[k + 1..]
    ensures WithoutId(pending, id) == pending[..k] + pending[k + 1..]
  {
    var pre, x, post := pending[..k], pending[k], pending[k + 1..];
    assert pending == pre + [x] + post;
    assert WithoutId(pending, id) == WithoutId(pre + [x], id) + WithoutId(post, id) by {
      WithoutIdAppend(pre + [x], post, id);
    }
    assert WithoutId(pre + [x], id) == pre by {
      WithoutIdAppend(pre, [x], id);
      WithoutIdBeforeFirst(pending, k, id);
      WithoutIdMatch(x, id);
    }
    assert WithoutId(post, id) == post by {
      WithoutIdAfterFirst(pending, k, id);
    }
  }

  lemma WithoutIdMatch(x: Info, id: int)
    requires x.id == id
    ensures WithoutId([x], id) == []
  {
  }

  /**
   * With unique ids, verifying moves a claim and loses or duplicates none:
   * the two columns together hold the same entries as before.
   */
  lemma VerifyConservesClaims(verified: seq<Info>, pending: seq<Info>, id: int)
    requires UniqueIds(pending)
    ensures multiset(Verify(verified, pending, id).0 + Verify(verified, pending, id).1)
            == multiset(verified + pending)
  {
    match FindIndex(pending, id)
    case None =>
    case Some(k) =>
      OnlyMatch(pending, k, id);
      SplitAtFirst(pending, k, id);
  }

  /** With unique ids, the first match is the only one. */
  lemma OnlyMatch(pending: seq<Info>, k: nat, id: int)
    requires FindIndex(pending, id) == Some(k)
    requires UniqueIds(pending)
    ensures forall j :: k < j < |pending| ==> pending[j].id != id
  {
  }

  /** A part of a list with unique ids has unique ids. */
  lemma UniqueIdsSuffix(a: seq<Info>, b: seq<Info>)
    requires UniqueIds(a + b)
    ensures UniqueIds(b)
  {
    assert forall j :: 0 <= j < |b| ==> b[j] == (a + b)[|a| + j];
  }

  /** Moving a block `b` past a block `c` keeps ids unique. */
  lemma UniqueIdsSwap(a: seq<Info>, b: seq<Info>, c: seq<Info>, d: seq<Info>)
    requires UniqueIds(a + b + c + d)
    ensures UniqueIds(a + c + b + d)
  {
    var s, t := a + b + c + d, a + c + b + d;
    forall i, j | 0 <= i < j < |t| ensures t[i].id != t[j].id {
      var pi, pj := Origin(i, |a|, |b|, |c|), Origin(j, |a|, |b|, |c|);
      assert t[i] == s[pi];
      assert t[j] == s[pj];
    }
  }

  /** Where the entry at position `i` of a + c + b + d sits in a + b + c + d. */
  function Origin(i: nat, na: nat, nb: nat, nc: nat): nat {
    if i < na then i
    else if i < na + nc then i + nb
    else if i < na + nc + nb then i - nc
    else i
  }

  /** Verifying keeps the ids of both columns together unique (the class invariant). */
  lemma VerifyPreservesUniqueIds(verified: seq<Info>, pending: seq<Info>, id: int)
    requires UniqueIds(verified + pending)
    ensures UniqueIds(Verify(verified, pending, id).0 + Verify(verified, pending, id).1)
  {
    UniqueIdsSuffix(verified, pending);
    match FindIndex(pending, id)
    case None =>
    case Some(k) =>
      OnlyMatch(pending, k, id);
      SplitAtFirst(pending, k, id);
      var pre, x, post := pending[..k], [pending[k]], pending[k + 1..];
      assert verified + pending == verified + pre + x + post;
      UniqueIdsSwap(verified, pre, x, post);
      assert Verify(verified, pending, id).0 + Verify(verified, pending, id).1
             == verified + x + pre + post;
  }

  // ---------------------------------------------------------------------------
  // Verifying, as the source is written
  // ---------------------------------------------------------------------------

  /** The verified list with each entry wrapped as a defined value. */
  function Defined(s: seq<Info>): (r: seq<Option<Info>>)
    ensures |r| == |s| && forall k :: 0 <= k < |s| ==> r[k] == Some(s[k])
  {
    if s == [] then [] else [Some(s[0])] + Defined(s[1..])
  }

  /**
   * `handleVerifyInfo` as written: the result of `find` is appended to the
   * verified list whether or not it found anything; `None` is `undefined`.
   */
  function VerifyAsWritten(verified: seq<Info>, pending: seq<Info>, id: int): (r: (seq<Option<Info>>, seq<Info>))
    ensures |r.0| == |verified| + 1
    ensures r.0[..|verified|] == Defined(verified)
    ensures r.0[|verified|] == None <==> FindIndex(pending, id).None?
    ensures FindIndex(pending, id).Some? ==> r.0[|verified|] == Some(pending[FindIndex(pending, id).value])
    ensures r.1 == WithoutId(pending, id)
  {
    var found := match FindIndex(pending, id)
      case None => None
      case Some(k) => Some(pending[k]);
    (Defined(verified) + [found], WithoutId(pending, id))
  }

  /** Where the id is present, the written handler and `Verify` agree. */
  lemma VerifyAsWrittenAgrees(verified: seq<Info>, pending: seq<Info>, id: int)
    requires FindIndex(pending, id).Some?
    ensures VerifyAsWritten(verified, pending, id).0 == Defined(Verify(verified, pending, id).0)
    ensures VerifyAsWritten(verified, pending, id).1 == Verify(verified, pending, id).1
  {
  }

  /**
   * Verifying a present id twice, as written, leaves an `undefined` entry at
   * the end of the verified list (the second `find` finds nothing).
   */
  lemma VerifyAsWrittenTwice(verified: seq<Info>, pending: seq<Info>, id: int)
    requires FindIndex(pending, id).Some?
    ensures var once := Verify(verified, pending, id);
            var twice := VerifyAsWritten(once.0, once.1, id);
            |twice.0| == |verified| + 2 && twice.0[|verified| + 1] == None
  {
  }
}
