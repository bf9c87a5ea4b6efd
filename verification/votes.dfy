/**
  The upvote hook of a story card: the displayed vote and score, and the
  browser's key/value storage, abstracted as a map, where the vote survives
  reloads under the key `vote-<storyId>`.
 */
module Votes {
  import opened Wrappers
  import opened Stories
  import Decimal

  const KeyPrefix := "vote-"
  const UpTag := "up"

  /** The storage key of one story's vote. */
  function VoteKey(storyId: int): (k: string)
    ensures |k| > |KeyPrefix| && k[..|KeyPrefix|] == KeyPrefix
    ensures Decimal.ParseInt(k[|KeyPrefix|..]) == storyId
  {
    var k := KeyPrefix + Decimal.IntToString(storyId);
    assert k[|KeyPrefix|..] == Decimal.IntToString(storyId);
    Decimal.ParseIntToString(storyId);
    k
  }

  /** Different stories never share a storage key. */
  lemma VoteKeyInjective(a: int, b: int)
    ensures VoteKey(a) == VoteKey(b) <==> a == b
  {
    if VoteKey(a) == VoteKey(b) {
      assert VoteKey(a)[|KeyPrefix|..] == Decimal.IntToString(a);
      assert VoteKey(b)[|KeyPrefix|..] == Decimal.IntToString(b);
      Decimal.IntToStringInjective(a, b);
    }
  }

  /**
    The direction a non-empty stored string stands for: the hook casts it to
    its vote type without checking, so only "up" is a real upvote.
   */
  function SavedVote(saved: string): (v: Vote)
    requires saved != ""
    ensures v == Up <==> saved == UpTag
    ensures v != NoVote
    ensures v.Unrecognized? ==> v.tag == saved
  {
    if saved == UpTag then Up else Unrecognized(saved)
  }

  datatype VoteState = VoteState(voted: Vote, score: int, store: map<string, string>)

  /** `localStorage.getItem`: `None` stands for `null`. */
  function Get(store: map<string, string>, key: string): (v: Option<string>)
    ensures v.Some? <==> key in store
    ensures v.Some? ==> v.value == store[key]
  {
    if key in store then Some(store[key]) else None
  }

  /** The hook's first render: no vote shown and the server's score. */
  function Mount(initialScore: int, store: map<string, string>): (s: VoteState)
    ensures s.voted == NoVote && s.score == initialScore && s.store == store
  {
    VoteState(NoVote, initialScore, store)
  }

  /**
    The mount effect. A non-empty saved value wins; otherwise an `initialVote`
    of up is adopted; otherwise the vote stays. The score is never touched.
   */
  function Load(s: VoteState, storyId: int, initialVote: Vote): (r: VoteState)
    requires !initialVote.Unrecognized?
    ensures r.score == s.score && r.store == s.store
    ensures VoteKey(storyId) in s.store && s.store[VoteKey(storyId)] != "" ==>
              r.voted == SavedVote(s.store[VoteKey(storyId)])
    ensures !(VoteKey(storyId) in s.store && s.store[VoteKey(storyId)] != "") ==>
              r.voted == (if initialVote == Up then Up else s.voted)
  {
    var saved := Get(s.store, VoteKey(storyId));
    if saved.Some? && saved.value != "" then s.(voted := SavedVote(saved.value))
    else if initialVote == Up then s.(voted := Up)
    else s
  }

  /**
    `vote('up')`: a second upvote withdraws the vote, resetting the score and
    deleting the key; otherwise the vote is cast, the score is one above the
    server's, and the key holds "up".
   */
  function VoteUp(s: VoteState, storyId: int, initialScore: int): (r: VoteState)
    ensures s.voted == Up ==> r.voted == NoVote && r.score == initialScore && VoteKey(storyId) !in r.store
    ensures s.voted != Up ==> r.voted == Up && r.score == initialScore + 1 && Get(r.store, VoteKey(storyId)) == Some(UpTag)
    ensures forall k :: k != VoteKey(storyId) ==> Get(r.store, k) == Get(s.store, k)
  {
    var key := VoteKey(storyId);
    if s.voted == Up then
      VoteState(NoVote, initialScore, s.store - {key})
    else
      VoteState(Up, initialScore + 1, s.store[key := UpTag])
  }

  /**
    The display agrees with storage: the vote is none or up, the score counts
    the user's own vote on top of the server's, and the key is present, holding
    "up", exactly when the vote is up.
   */
  predicate Consistent(s: VoteState, storyId: int, initialScore: int) {
    && (s.voted == NoVote || s.voted == Up)
    && s.score == initialScore + (if s.voted == Up then 1 else 0)
    && Get(s.store, VoteKey(storyId)) == (if s.voted == Up then Some(UpTag) else None)
  }

  /** Whatever the state before, a vote leaves display and storage consistent. */
  lemma VoteUpConsistent(s: VoteState, storyId: int, initialScore: int)
    ensures Consistent(VoteUp(s, storyId, initialScore), storyId, initialScore)
    ensures VoteUp(s, storyId, initialScore).score in {initialScore, initialScore + 1}
  {
  }

  /** From a consistent state, voting twice restores vote, score and storage exactly. */
  lemma VoteUpTwice(s: VoteState, storyId: int, initialScore: int)
    requires Consistent(s, storyId, initialScore)
    ensures VoteUp(VoteUp(s, storyId, initialScore), storyId, initialScore) == s
  {
    var key := VoteKey(storyId);
    var r := VoteUp(VoteUp(s, storyId, initialScore), storyId, initialScore);
    assert r.store.Keys == s.store.Keys by {
      forall k ensures k in r.store <==> k in s.store {
        assert Get(r.store, k).Some? <==> Get(s.store, k).Some?;
      }
    }
    forall k | k in s.store ensures r.store[k] == s.store[k] {
      assert Get(r.store, k) == Get(s.store, k);
    }
  }

  /** A fresh card starts consistent when storage holds no vote for it. */
  lemma MountConsistent(initialScore: int, storyId: int, store: map<string, string>)
    requires VoteKey(storyId) !in store
    ensures Consistent(Mount(initialScore, store), storyId, initialScore)
  {
  }

  /** Voting on one story leaves every other story's stored vote alone. */
  lemma VoteUpOtherStory(s: VoteState, storyId: int, other: int, initialScore: int)
    requires other != storyId
    ensures Get(VoteUp(s, storyId, initialScore).store, VoteKey(other)) == Get(s.store, VoteKey(other))
  {
    VoteKeyInjective(storyId, other);
  }

  /**
    A cast vote survives a reload: a freshly mounted card for the same story
    shows the vote as up, whatever `initialVote` says.
   */
  lemma ReloadRestoresVote(s: VoteState, storyId: int, initialScore: int, initialVote: Vote)
    requires s.voted != Up
    requires !initialVote.Unrecognized?
    ensures Load(Mount(initialScore, VoteUp(s, storyId, initialScore).store), storyId, initialVote).voted == Up
  {
  }

  /**
    The reload shows the restored vote next to the server's score without the
    user's own point: the restored state is not consistent, and the next click
    withdraws the vote without lowering the score shown.
   */
  lemma ReloadedVoteNotCounted(storyId: int, initialScore: int, initialVote: Vote)
    requires !initialVote.Unrecognized?
    ensures var loaded := Load(Mount(initialScore, map[VoteKey(storyId) := UpTag]), storyId, initialVote);
      && loaded.voted == Up
      && loaded.score == initialScore
      && !Consistent(loaded, storyId, initialScore)
      && VoteUp(loaded, storyId, initialScore).score == loaded.score
  {
  }
}
