/**
 * MIPStage: the maximum intensity projection stage's ordered list of
 * channels. Each channel is rendered in list order, so ascending a channel
 * moves it one step towards the front. Channels are identified by number;
 * the stage owns them and deletes them when cleared.
 */
module MIPStages {
  import opened Wrappers
  import opened Lists

  /** The list after swapping `x` with its predecessor, as ascendChannel does; `x` stays in front if it is there. */
  function Ascended(s: seq<nat>, x: nat): (r: seq<nat>)
    requires x in s
    ensures |r| == |s| && multiset(r) == multiset(s)
    ensures var i := FirstIndexOf(s, x);
            r[if i == 0 then 0 else i - 1] == x
            && (i > 0 ==> r[i] == s[i - 1])
            && forall k :: 0 <= k < |s| && k != i && k + 1 != i ==> r[k] == s[k]
  {
    var i := FirstIndexOf(s, x);
    if i == 0 then s
    else
      assert s == s[..i - 1] + [s[i - 1], x] + s[i + 1..];
      s[..i - 1] + [x, s[i - 1]] + s[i + 1..]
  }

  /** Ascending keeps a list free of duplicates. */
  lemma AscendedNoDuplicates(s: seq<nat>, x: nat)
    requires NoDuplicates(s) && x in s
    ensures NoDuplicates(Ascended(s, x))
  {
    var r := Ascended(s, x);
    var i := FirstIndexOf(s, x);
    forall a, b | 0 <= a < b < |r|
      ensures r[a] != r[b]
    {
      var a' := if i > 0 && a == i - 1 then i else if i > 0 && a == i then i - 1 else a;
      var b' := if i > 0 && b == i - 1 then i else if i > 0 && b == i then i - 1 else b;
      assert r[a] == s[a'] && r[b] == s[b'];
    }
  }

  /**
   * What removeChannel returns as written: the channel is erased first and
   * the erased iterator is then dereferenced. That is undefined behaviour;
   * the model takes it to yield the channel that moved into the erased
   * place, and `None` when the erased channel was last.
   */
  function RemoveChannelAsWritten(s: seq<nat>, x: nat): Option<nat>
    requires x in s
  {
    var i := FirstIndexOf(s, x);
    var erased := s[..i] + s[i + 1..];
    if i < |erased| then Some(erased[i]) else None
  }

  /** In a list without duplicates, removeChannel as written never returns the removed channel. */
  lemma RemoveChannelReturnsAnother(s: seq<nat>, x: nat)
    requires NoDuplicates(s) && x in s
    ensures RemoveChannelAsWritten(s, x) != Some(x)
  {
    var i := FirstIndexOf(s, x);
    if i < |s| - 1 {
      EraseAt(s, i, i);
    }
  }

  /** Removing the first of two channels returns the second. */
  lemma RemoveFirstOfTwoChannels()
    ensures RemoveChannelAsWritten([1, 2], 1) == Some(2)
  {
    assert FirstIndexOf([1, 2], 1) == 0;
  }

  class MIPStage {
    /** The channels in rendering order. */
    var channels: seq<nat>
    /** The channels deleted by the stage, in order. */
    var deleted: seq<nat>

    /** appendChannel asserts absence, so no channel is listed twice. */
    predicate Valid()
      reads this
    {
      NoDuplicates(channels)
    }

    constructor()
      ensures Valid() && channels == [] && deleted == []
    {
      channels := [];
      deleted := [];
    }

    /** The destructor clears the channels. */
    method Destroy()
      modifies this
      ensures channels == [] && deleted == old(deleted) + old(channels)
    {
      ClearChannels();
    }

    /** The position `std::find` reports for a listed channel. */
    method Find(channel: nat) returns (i: nat)
      requires channel in channels
      ensures i == FirstIndexOf(channels, channel)
    {
      i := 0;
      while channels[i] != channel
        invariant i < |channels| && channel in channels[i..] && channel !in channels[..i]
        decreases |channels| - i
      {
        assert channels[i..] == [channels[i]] + channels[i + 1..];
        assert channels[..i + 1] == channels[..i] + [channels[i]];
        i := i + 1;
      }
      FirstIndexOfIs(channels, channel, i);
    }

    /** appendChannel: asserts the channel is not listed yet and appends it. */
    method AppendChannel(channel: nat)
      requires channel !in channels
      modifies this
      ensures channels == old(channels) + [channel] && deleted == old(deleted)
      ensures old(Valid()) ==> Valid()
    {
      channels := channels + [channel];
    }

    /** removeChannel, as intended: asserts the channel is listed, erases it and hands it back. */
    method RemoveChannel(channel: nat) returns (removed: nat)
      requires channel in channels
      modifies this
      ensures channels == RemoveFirst(old(channels), channel) && deleted == old(deleted)
      ensures removed == channel
      ensures old(Valid()) ==> Valid() && channel !in channels
    {
      var i := Find(channel);
      RemoveFirstAt(channels, channel, i);
      if Valid() {
        RemoveFirstNoDuplicates(channels, channel);
      }
      removed := channels[i];
      channels := channels[..i] + channels[i + 1..];
    }

    /** ascendChannel: asserts the channel is listed and swaps it with its predecessor, if it has one. */
    method AscendChannel(channel: nat)
      requires channel in channels
      modifies this
      ensures channels == Ascended(old(channels), channel) && deleted == old(deleted)
      ensures old(Valid()) ==> Valid()
    {
      var i := Find(channel);
      if Valid() {
        AscendedNoDuplicates(channels, channel);
      }
      if i != 0 {
        channels := channels[i := channels[i - 1]][i - 1 := channel];
        assert channels == old(channels)[..i - 1] + [channel, old(channels)[i - 1]] + old(channels)[i + 1..];
      }
    }

    /** clearChannels: deletes every channel and empties the list. */
    method ClearChannels()
      modifies this
      ensures channels == [] && deleted == old(deleted) + old(channels)
      ensures Valid()
    {
      deleted := deleted + channels;
      channels := [];
    }
  }
}
