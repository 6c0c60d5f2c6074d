/**
 * The figures `getUserChannelProfile` derives from the subscriptions
 * collection for one channel: how many subscribe to it, how many channels it
 * subscribes to, and whether the caller is subscribed.
 */
module Channel {
  import opened Schema

  /** `$size` of the subscriptions whose channel is `id`. */
  function SubscriberCount(subs: seq<Subscription>, id: UserId): nat {
    if subs == [] then 0
    else (if subs[0].channel == id then 1 else 0) + SubscriberCount(subs[1..], id)
  }

  /** `$size` of the subscriptions whose subscriber is `id`. */
  function SubscribedToCount(subs: seq<Subscription>, id: UserId): nat {
    if subs == [] then 0
    else (if subs[0].subscriber == id then 1 else 0) + SubscribedToCount(subs[1..], id)
  }

  function Channels(subs: seq<Subscription>): seq<UserId> {
    seq(|subs|, i requires 0 <= i < |subs| => subs[i].channel)
  }

  function Subscribers(subs: seq<Subscription>): seq<UserId> {
    seq(|subs|, i requires 0 <= i < |subs| => subs[i].subscriber)
  }

  /**
   * `isSubscribed` as written: the caller is looked for among the `subscriber`
   * fields of the channel's own outgoing subscriptions (`$subscribedTo.subscriber`).
   */
  predicate IsSubscribedAsWritten(subs: seq<Subscription>, channel: UserId, caller: UserId) {
    exists i | 0 <= i < |subs| :: subs[i].subscriber == channel && subs[i].subscriber == caller
  }

  /** `isSubscribed` as intended: the caller is among the channel's subscribers (`$subscribers.subscriber`). */
  predicate IsSubscribed(subs: seq<Subscription>, channel: UserId, caller: UserId) {
    exists i | 0 <= i < |subs| :: subs[i].channel == channel && subs[i].subscriber == caller
  }

  /** The subscriber count is the multiplicity of the channel in the channel column. */
  lemma {:induction false} SubscriberCountIsMultiplicity(subs: seq<Subscription>, id: UserId)
    ensures SubscriberCount(subs, id) == multiset(Channels(subs))[id]
  {
    if subs != [] {
      SubscriberCountIsMultiplicity(subs[1..], id);
      assert Channels(subs) == [subs[0].channel] + Channels(subs[1..]);
    }
  }

  /** The subscribed-to count is the multiplicity of the user in the subscriber column. */
  lemma {:induction false} SubscribedToCountIsMultiplicity(subs: seq<Subscription>, id: UserId)
    ensures SubscribedToCount(subs, id) == multiset(Subscribers(subs))[id]
  {
    if subs != [] {
      SubscribedToCountIsMultiplicity(subs[1..], id);
      assert Subscribers(subs) == [subs[0].subscriber] + Subscribers(subs[1..]);
    }
  }

  /**
   * One more subscription of `a` to `c` raises the subscriber count of `c` and
   * the subscribed-to count of `a` by one and leaves every other count as it was.
   */
  lemma {:induction false} SubscribeCounts(subs: seq<Subscription>, a: UserId, c: UserId, x: UserId)
    ensures SubscriberCount(subs + [Subscription(a, c)], x) == SubscriberCount(subs, x) + (if x == c then 1 else 0)
    ensures SubscribedToCount(subs + [Subscription(a, c)], x) == SubscribedToCount(subs, x) + (if x == a then 1 else 0)
  {
    if subs != [] {
      SubscribeCounts(subs[1..], a, c, x);
      assert (subs + [Subscription(a, c)])[1..] == subs[1..] + [Subscription(a, c)];
    }
  }

  /** The corrected flag holds exactly when the subscription document (caller, channel) exists. */
  lemma IsSubscribedIffSubscriptionExists(subs: seq<Subscription>, channel: UserId, caller: UserId)
    ensures IsSubscribed(subs, channel, caller) <==> Subscription(caller, channel) in subs
  {
    if Subscription(caller, channel) in subs {
      var i :| 0 <= i < |subs| && subs[i] == Subscription(caller, channel);
      assert subs[i].channel == channel && subs[i].subscriber == caller;
    }
  }

  /**
   * As written, the flag holds only when the caller views their own channel
   * and that channel subscribes to somebody: it never reports another user's
   * subscription.
   */
  lemma {:induction false} AsWrittenOnlySeesSelf(subs: seq<Subscription>, channel: UserId, caller: UserId)
    ensures IsSubscribedAsWritten(subs, channel, caller) <==> caller == channel && SubscribedToCount(subs, channel) > 0
  {
    SubscribedToCountIsMultiplicity(subs, channel);
    if caller == channel && SubscribedToCount(subs, channel) > 0 {
      assert channel in Subscribers(subs);
      var i :| 0 <= i < |subs| && Subscribers(subs)[i] == channel;
      assert subs[i].subscriber == channel;
    }
    if IsSubscribedAsWritten(subs, channel, caller) {
      var i :| 0 <= i < |subs| && subs[i].subscriber == channel && subs[i].subscriber == caller;
      assert Subscribers(subs)[i] == channel;
    }
  }

  /** A viewer who subscribes to a channel is reported as not subscribed by the code as written. */
  lemma AsWrittenMissesSubscriber()
    ensures !IsSubscribedAsWritten([Subscription(2, 1)], 1, 2)
    ensures IsSubscribed([Subscription(2, 1)], 1, 2)
  {
    assert [Subscription(2, 1)][0].channel == 1;
  }
}
