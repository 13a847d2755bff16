/** The downloadable-prefix classifier: scanning an episode list in order, every episode
    up to (not including) the first one whose thumbnail is locked is downloadable. */
module Classifier {
  import opened Records

  /** The position of the first locked episode, or |episodes| when none is locked. */
  function FirstLockIndex(episodes: seq<EpisodeInfo>): (k: nat)
    ensures k <= |episodes|
    ensures forall i :: 0 <= i < k ==> !episodes[i].thumbnailLock
    ensures k < |episodes| ==> episodes[k].thumbnailLock
  {
    if episodes == [] || episodes[0].thumbnailLock then 0
    else 1 + FirstLockIndex(episodes[1..])
  }

  /** The episodes the classifier returns: those before the first lock. They are a prefix
      of the input, none of them is locked, and the input episode just after them, if
      any, is locked. */
  function DownloadablePrefix(episodes: seq<EpisodeInfo>): (r: seq<EpisodeInfo>)
    ensures r <= episodes
    ensures forall i :: 0 <= i < |r| ==> !r[i].thumbnailLock
    ensures |r| < |episodes| ==> episodes[|r|].thumbnailLock
  {
    episodes[..FirstLockIndex(episodes)]
  }

  /** A position k is the first lock exactly when everything before it is unlocked and
      k is either the end of the list or a locked episode. */
  lemma FirstLockIndexCharacterized(episodes: seq<EpisodeInfo>, k: nat)
    requires k <= |episodes|
    ensures FirstLockIndex(episodes) == k <==>
              (forall i :: 0 <= i < k ==> !episodes[i].thumbnailLock)
              && (k < |episodes| ==> episodes[k].thumbnailLock)
  {
  }

  /** With no locked episode the whole list is downloadable. */
  lemma NoLockMeansAllDownloadable(episodes: seq<EpisodeInfo>)
    requires forall i :: 0 <= i < |episodes| ==> !episodes[i].thumbnailLock
    ensures DownloadablePrefix(episodes) == episodes
  {
  }

  /** Whatever follows the first locked episode (its lock flags, subtitles, numbers, or
      its length) never changes the result, because the scan stops at the first lock. */
  lemma {:induction false} TailAfterFirstLockIgnored(episodes: seq<EpisodeInfo>, tail: seq<EpisodeInfo>)
    requires FirstLockIndex(episodes) < |episodes|
    ensures FirstLockIndex(episodes[..FirstLockIndex(episodes) + 1] + tail) == FirstLockIndex(episodes)
    ensures DownloadablePrefix(episodes[..FirstLockIndex(episodes) + 1] + tail) == DownloadablePrefix(episodes)
  {
    var k := FirstLockIndex(episodes);
    var other := episodes[..k + 1] + tail;
    assert forall i :: 0 <= i <= k ==> other[i] == episodes[i];
    FirstLockIndexCharacterized(other, k);
  }
}
