/** Channels and the epoll poller: a three-valued index on each channel keeps the poller's map and the
    kernel's interest set in step with what the channels ask for. */
module Pollers {

  /** The low bits of an epoll event mask; no other bit is ever set in one. */
  type Mask = bv8

  const NONE_EVENT: Mask := 0
  const EPOLLIN: Mask := 1
  const EPOLLPRI: Mask := 2
  const EPOLLOUT: Mask := 4
  const READ_EVENT: Mask := EPOLLIN | EPOLLPRI
  const WRITE_EVENT: Mask := EPOLLOUT

  /** Never added or removed; in the map and the kernel; in the map only. */
  datatype Index = New | Added | Deleted

  datatype Operation = CtlAdd | CtlMod | CtlDel

  /** One entry of the kernel's interest set: the mask and the pointer it hands back. */
  datatype Interest = Interest(mask: Mask, ptr: Channel)

  /** One element of the array epoll_wait fills. */
  datatype Event = Event(events: Mask, ptr: Channel)

  /** Enabling one direction sets its bits and no others; disabling clears them. */
  lemma MaskBits(events: Mask)
    ensures (events | READ_EVENT) & READ_EVENT == READ_EVENT
    ensures (events | READ_EVENT) & !READ_EVENT == events & !READ_EVENT
    ensures (events & !READ_EVENT) & READ_EVENT == 0
    ensures (events | WRITE_EVENT) & WRITE_EVENT == WRITE_EVENT
    ensures (events | WRITE_EVENT) & !WRITE_EVENT == events & !WRITE_EVENT
    ensures (events & !WRITE_EVENT) & WRITE_EVENT == 0
    ensures (events | WRITE_EVENT) & READ_EVENT == events & READ_EVENT
    ensures (events & !WRITE_EVENT) & READ_EVENT == events & READ_EVENT
    ensures (events | READ_EVENT) & WRITE_EVENT == events & WRITE_EVENT
    ensures (events & !READ_EVENT) & WRITE_EVENT == events & WRITE_EVENT
  {
  }

  /** In terms of epoll's own bits: reading is both the ordinary and the urgent input bit. */
  lemma EpollBits(events: Mask)
    ensures (events | READ_EVENT) & EPOLLIN == EPOLLIN && (events | READ_EVENT) & EPOLLPRI == EPOLLPRI
    ensures (events | READ_EVENT) & EPOLLOUT == events & EPOLLOUT
    ensures (events & !READ_EVENT) & EPOLLIN == 0 && (events & !READ_EVENT) & EPOLLPRI == 0
    ensures (events & !READ_EVENT) & EPOLLOUT == events & EPOLLOUT
    ensures (events | WRITE_EVENT) & EPOLLOUT == EPOLLOUT
    ensures (events | WRITE_EVENT) & (EPOLLIN | EPOLLPRI) == events & (EPOLLIN | EPOLLPRI)
    ensures (events & !WRITE_EVENT) & EPOLLOUT == 0
    ensures (events & !WRITE_EVENT) & (EPOLLIN | EPOLLPRI) == events & (EPOLLIN | EPOLLPRI)
  {
  }

  /** Where an update with this mask takes a channel: only an added one can be deleted by it. */
  function NextIndex(index: Index, events: Mask): Index {
    if index == Added && events == NONE_EVENT then Deleted else Added
  }

  /** Where a run of updates without a removal takes a channel. */
  function IndexAfter(index: Index, masks: seq<Mask>): Index {
    if masks == [] then index else NextIndex(IndexAfter(index, masks[..|masks| - 1]), masks[|masks| - 1])
  }

  /** How many updates at the end of the run asked for nothing. */
  function IdleUpdates(masks: seq<Mask>): (n: nat)
    ensures n <= |masks|
  {
    if masks == [] || masks[|masks| - 1] != NONE_EVENT then 0 else 1 + IdleUpdates(masks[..|masks| - 1])
  }

  lemma IndexAfterOneMore(masks: seq<Mask>, mask: Mask)
    ensures IndexAfter(New, masks + [mask]) == NextIndex(IndexAfter(New, masks), mask)
    ensures LastOf(masks + [mask]) == mask
  {
    assert (masks + [mask])[..|masks|] == masks;
  }

  /** What was asked for last. */
  function LastOf(masks: seq<Mask>): Mask {
    if masks == [] then NONE_EVENT else masks[|masks| - 1]
  }

  lemma NeverAsked()
    ensures IndexAfter(New, []) == New && LastOf([]) == NONE_EVENT
  {
  }

  /** It was asked for something and then for nothing an even number of times, or for nothing from the
      start and an odd number of times. */
  predicate Watched(masks: seq<Mask>) {
    masks != [] && IdleUpdates(masks) % 2 == if IdleUpdates(masks) == |masks| then 1 else 0
  }

  /** Asking for nothing takes an added channel out of the kernel and puts any other one in, so a run of
      updates ends with an added channel exactly in that case. */
  lemma {:induction false} WatchedIff(masks: seq<Mask>)
    ensures IndexAfter(New, masks) == Added <==> Watched(masks)
    ensures IndexAfter(New, masks) == New <==> masks == []
  {
    if masks != [] {
      WatchedIff(masks[..|masks| - 1]);
    }
  }

  class Channel {
    const fd: int
    var events: Mask
    var revents: Mask
    var index: Index
    ghost var asked: seq<Mask>  // the masks of the updates since it was made or last removed

    constructor (fd: int)
      ensures this.fd == fd && events == NONE_EVENT && revents == 0 && index == New && asked == []
    {
      this.fd, events, revents, index, asked := fd, NONE_EVENT, 0, New, [];
    }

    predicate IsNoneEvent()
      reads `events
    {
      events == NONE_EVENT
    }

    predicate IsWriting()
      reads `events
    {
      events & WRITE_EVENT != 0
    }

    predicate IsReading()
      reads `events
    {
      events & READ_EVENT != 0
    }

    /** What enabling and disabling have in common: the new mask, and update. */
    method AskFor(poller: EpollPoller, mask: Mask)
      requires poller.Valid() && this in poller.live
      modifies `events, `index, `asked, poller`channels, poller`kernel
      ensures poller.Valid() && poller.channels == old(poller.channels)[fd := this]
      ensures asked == old(asked) + [events] && index == NextIndex(old(index), events)
      ensures poller.kernel == if index == Added then old(poller.kernel)[fd := Interest(events, this)]
                               else old(poller.kernel) - {fd}
      ensures events == mask
    {
      hide EpollPoller.Registered, NextIndex;
      events := mask;
      poller.UpdateChannel(this);
    }

    method EnableReading(poller: EpollPoller)
      requires poller.Valid() && this in poller.live
      modifies `events, `index, `asked, poller`channels, poller`kernel
      ensures poller.Valid() && poller.channels == old(poller.channels)[fd := this]
      ensures asked == old(asked) + [events] && index == NextIndex(old(index), events)
      ensures poller.kernel == if index == Added then old(poller.kernel)[fd := Interest(events, this)]
                               else old(poller.kernel) - {fd}
      ensures IsReading() && IsWriting() == old(IsWriting())
      ensures events & EPOLLIN == EPOLLIN && events & EPOLLPRI == EPOLLPRI && events & EPOLLOUT == old(events) & EPOLLOUT
    {
      hide EpollPoller.Valid, NextIndex;
      MaskBits(events);
      EpollBits(events);
      AskFor(poller, events | READ_EVENT);
    }

    method DisableReading(poller: EpollPoller)
      requires poller.Valid() && this in poller.live
      modifies `events, `index, `asked, poller`channels, poller`kernel
      ensures poller.Valid() && poller.channels == old(poller.channels)[fd := this]
      ensures asked == old(asked) + [events] && index == NextIndex(old(index), events)
      ensures poller.kernel == if index == Added then old(poller.kernel)[fd := Interest(events, this)]
                               else old(poller.kernel) - {fd}
      ensures !IsReading() && IsWriting() == old(IsWriting())
      ensures events & EPOLLIN == 0 && events & EPOLLPRI == 0 && events & EPOLLOUT == old(events) & EPOLLOUT
    {
      hide EpollPoller.Valid, NextIndex;
      MaskBits(events);
      EpollBits(events);
      AskFor(poller, events & !READ_EVENT);
    }

    method EnableWriting(poller: EpollPoller)
      requires poller.Valid() && this in poller.live
      modifies `events, `index, `asked, poller`channels, poller`kernel
      ensures poller.Valid() && poller.channels == old(poller.channels)[fd := this]
      ensures asked == old(asked) + [events] && index == NextIndex(old(index), events)
      ensures poller.kernel == if index == Added then old(poller.kernel)[fd := Interest(events, this)]
                               else old(poller.kernel) - {fd}
      ensures IsWriting() && IsReading() == old(IsReading())
      ensures events & EPOLLOUT == EPOLLOUT && events & (EPOLLIN | EPOLLPRI) == old(events) & (EPOLLIN | EPOLLPRI)
    {
      hide EpollPoller.Valid, NextIndex;
      MaskBits(events);
      EpollBits(events);
      AskFor(poller, events | WRITE_EVENT);
    }

    method DisableWriting(poller: EpollPoller)
      requires poller.Valid() && this in poller.live
      modifies `events, `index, `asked, poller`channels, poller`kernel
      ensures poller.Valid() && poller.channels == old(poller.channels)[fd := this]
      ensures asked == old(asked) + [events] && index == NextIndex(old(index), events)
      ensures poller.kernel == if index == Added then old(poller.kernel)[fd := Interest(events, this)]
                               else old(poller.kernel) - {fd}
      ensures !IsWriting() && IsReading() == old(IsReading())
      ensures events & EPOLLOUT == 0 && events & (EPOLLIN | EPOLLPRI) == old(events) & (EPOLLIN | EPOLLPRI)
    {
      hide EpollPoller.Valid, NextIndex;
      MaskBits(events);
      EpollBits(events);
      AskFor(poller, events & !WRITE_EVENT);
    }

    method DisableAll(poller: EpollPoller)
      requires poller.Valid() && this in poller.live
      modifies `events, `index, `asked, poller`channels, poller`kernel
      ensures poller.Valid() && poller.channels == old(poller.channels)[fd := this]
      ensures asked == old(asked) + [events] && index == NextIndex(old(index), events)
      ensures poller.kernel == if index == Added then old(poller.kernel)[fd := Interest(events, this)]
                               else old(poller.kernel) - {fd}
      ensures IsNoneEvent()
    {
      hide EpollPoller.Valid, NextIndex;
      AskFor(poller, NONE_EVENT);
    }

    method Remove(poller: EpollPoller)
      requires poller.Valid() && this in poller.live
      requires index != New && IsNoneEvent()
      modifies `index, `asked, poller`channels, poller`kernel
      ensures poller.Valid() && index == New && asked == []
      ensures poller.channels == old(poller.channels) - {fd} && poller.kernel == old(poller.kernel) - {fd}
    {
      poller.RemoveChannel(this);
    }
  }

  class EpollPoller {
    var channels: map<int, Channel>
    ghost var kernel: map<int, Interest>  // the epoll instance's interest set
    ghost var live: set<Channel>          // the channels on this loop that exist

    constructor ()
      ensures Valid() && channels == map[] && kernel == map[] && live == {}
    {
      channels, kernel, live := map[], map[], {};
    }

    /** Live channels have descriptors of their own; the map holds exactly the added and deleted ones,
        the kernel exactly the added ones, with a pointer to each. */
    ghost predicate Registered()
      reads `channels, `kernel, `live, live`index, live`asked
    {
      && FdsDiffer()
      && channels.Keys <= Fds() && kernel.Keys <= Fds()
      && (forall c :: c in live ==> Fits(c))
    }

    ghost predicate FdsDiffer()
      reads `live
    {
      forall c, d :: c in live && d in live && c != d ==> c.fd != d.fd
    }

    ghost function Fds(): set<int>
      reads `live
    {
      set c | c in live :: c.fd
    }

    /** The index is where the updates have taken the channel; and map and kernel have this channel, and no
        other for its descriptor, as the index says. */
    ghost predicate Fits(c: Channel)
      reads `channels, `kernel, c`index, c`asked
    {
      && c.index == IndexAfter(New, c.asked)
      && (if c.index == New then c.fd !in channels else c.fd in channels && channels[c.fd] == c)
      && (if c.index != Added then c.fd !in kernel else c.fd in kernel && kernel[c.fd].ptr == c)
    }

    /** The kernel watches for what the channels ask for, which is what their last update said, but for
        those in `stale`. */
    ghost predicate MasksMatch(stale: set<Channel>)
      reads `kernel, `live, live`events, live`asked
    {
      forall c :: c in live && c !in stale ==>
        c.events == LastOf(c.asked) && (c.fd in kernel ==> kernel[c.fd].mask == c.events)
    }

    ghost predicate Valid()
      reads `channels, `kernel, `live, live`index, live`events, live`asked
    {
      Registered() && MasksMatch({})
    }

    /** The kernel's interest set has a channel exactly if it asked for something and then for nothing an
        even number of times, or for nothing from the start and an odd number of times, since it was made
        or last removed; and then with what it asked for last. */
    lemma KernelWatches(c: Channel)
      requires Valid() && c in live
      ensures c.fd in kernel <==> Watched(c.asked)
      ensures c.fd in kernel ==> kernel[c.fd] == Interest(LastOf(c.asked), c)
    {
      hide IndexAfter, Watched, LastOf;
      assert Fits(c);
      WatchedIff(c.asked);
    }

    /** epoll_ctl.  What it requires is when the kernel accepts the call. */
    method Update(operation: Operation, channel: Channel)
      requires if operation == CtlAdd then channel.fd !in kernel else channel.fd in kernel
      modifies `kernel
      ensures kernel == if operation == CtlDel then old(kernel) - {channel.fd}
                        else old(kernel)[channel.fd := Interest(channel.events, channel)]
    {
      match operation
      case CtlDel => kernel := kernel - {channel.fd};
      case _ => kernel := kernel[channel.fd := Interest(channel.events, channel)];
    }

    method UpdateChannel(channel: Channel)
      requires Registered() && MasksMatch({channel}) && channel in live
      modifies `channels, `kernel, channel`index, channel`asked
      ensures Valid() && channel.asked == old(channel.asked) + [channel.events]
      ensures channel.index == NextIndex(old(channel.index), channel.events)
      ensures channels == old(channels)[channel.fd := channel]
      ensures kernel == if channel.index == Added then old(kernel)[channel.fd := Interest(channel.events, channel)]
                        else old(kernel) - {channel.fd}
      ensures channel.fd in kernel <==> old(channel.index) != Added || !channel.IsNoneEvent()
    {
      hide Registered, MasksMatch;
      var index := channel.index;
      if index == New || index == Deleted {
        AddChannel(channel);
      } else {
        ChangeChannel(channel);
      }
    }

    /** A channel that is new, or was deleted from the kernel only. */
    method AddChannel(channel: Channel)
      requires Registered() && MasksMatch({channel}) && channel in live && channel.index != Added
      modifies `channels, `kernel, channel`index, channel`asked
      ensures Registered() && MasksMatch({}) && channel.index == Added
      ensures channel.asked == old(channel.asked) + [channel.events]
      ensures channels == old(channels)[channel.fd := channel]
      ensures kernel == old(kernel)[channel.fd := Interest(channel.events, channel)]
    {
      hide FdsDiffer, Fds, IndexAfter, LastOf;
      Apart(channel);
      var fd := channel.fd;
      assert Fits(channel);
      IndexAfterOneMore(channel.asked, channel.events);
      if channel.index == New {
        assert fd !in channels;
        channels := channels[fd := channel];
      } else {
        assert fd in channels && channels[fd] == channel;
      }
      channel.index := Added;
      channel.asked := channel.asked + [channel.events];
      Update(CtlAdd, channel);
      assert channels == old(channels)[channel.fd := channel];
    }

    /** A channel the kernel knows: nothing to watch for takes it out, anything else changes its mask. */
    method ChangeChannel(channel: Channel)
      requires Registered() && MasksMatch({channel}) && channel in live && channel.index == Added
      modifies `kernel, channel`index, channel`asked
      ensures Registered() && MasksMatch({}) && channel.asked == old(channel.asked) + [channel.events]
      ensures channel.index == if channel.IsNoneEvent() then Deleted else Added
      ensures channels == old(channels)[channel.fd := channel]
      ensures kernel == if channel.IsNoneEvent() then old(kernel) - {channel.fd}
                        else old(kernel)[channel.fd := Interest(channel.events, channel)]
    {
      hide FdsDiffer, Fds, IndexAfter, LastOf;
      Apart(channel);
      assert Fits(channel);
      IndexAfterOneMore(channel.asked, channel.events);
      assert channel.fd in channels && channels[channel.fd] == channel;
      channel.asked := channel.asked + [channel.events];
      if channel.IsNoneEvent() {
        Update(CtlDel, channel);
        channel.index := Deleted;
      } else {
        Update(CtlMod, channel);
      }
    }

    /** The other live channels have other descriptors. */
    lemma Apart(channel: Channel)
      requires FdsDiffer() && channel in live
      ensures forall c :: c in live && c != channel ==> c.fd != channel.fd
      ensures channel.fd in Fds()
    {
    }

    method RemoveChannel(channel: Channel)
      requires Valid() && channel in live
      requires channel.index != New && channel.IsNoneEvent()
      modifies `channels, `kernel, channel`index, channel`asked
      ensures Valid() && channel.index == New && channel.asked == []
      ensures channels == old(channels) - {channel.fd} && kernel == old(kernel) - {channel.fd}
    {
      hide FdsDiffer, Fds, IndexAfter, LastOf;
      NeverAsked();
      assert Fits(channel);
      assert channel.fd in channels && channels[channel.fd] == channel;
      var index := channel.index;
      channels := channels - {channel.fd};
      if index == Added {
        Update(CtlDel, channel);
      }
      channel.index := New;
      channel.asked := [];
      Apart(channel);
    }

    /** A channel is made for a descriptor no live channel has. */
    ghost method Adopt(channel: Channel)
      requires Valid() && channel !in live
      requires channel.index == New && channel.IsNoneEvent() && channel.asked == []
      requires forall c :: c in live ==> c.fd != channel.fd
      modifies `live
      ensures Valid() && live == old(live) + {channel}
    {
      live := live + {channel};
    }

    /** A removed channel is destroyed, and its descriptor may come back with another one. */
    ghost method Release(channel: Channel)
      requires Valid() && channel in live && channel.index == New
      modifies `live
      ensures Valid() && live == old(live) - {channel}
      ensures channel.fd !in channels && channel.fd !in kernel
    {
      live := live - {channel};
    }

    /** The pointer the kernel hands back is that of a live, registered channel. */
    lemma Target(fd: int)
      requires Registered() && fd in kernel
      ensures var c := kernel[fd].ptr; c in live && c.fd in channels && channels[c.fd] == c && c.index == Added
    {
      var c :| c in live && c.fd == fd;
      assert Fits(c);
    }

    /** What epoll_wait reported, which is only what the interest set holds, reaches channels that are
        alive, registered and listening. */
    method FillActiveChannels(events: seq<Event>) returns (active: seq<Channel>)
      requires Valid()
      requires forall e :: e in events ==> exists fd :: fd in kernel && kernel[fd].ptr == e.ptr
      requires forall i, j :: 0 <= i < j < |events| ==> events[i].ptr != events[j].ptr
      modifies live`revents
      ensures Valid()
      ensures |active| == |events|
      ensures forall i :: 0 <= i < |active| ==> active[i] == events[i].ptr && active[i].revents == events[i].events
      ensures forall c :: c in active ==> c in live && c.fd in channels && channels[c.fd] == c && c.index == Added
      ensures forall c :: c in live && c !in active ==> c.revents == old(c.revents)
    {
      hide Registered, MasksMatch;
      active := [];
      var i := 0;
      while i < |events|
        invariant 0 <= i <= |events| && |active| == i
        invariant forall j :: 0 <= j < i ==> active[j] == events[j].ptr && active[j].revents == events[j].events
        invariant forall c :: c in active ==> c in live && c.fd in channels && channels[c.fd] == c && c.index == Added
        invariant forall c :: c in live && c !in active ==> c.revents == old(c.revents)
        invariant Valid()
      {
        assert events[i] in events;
        ghost var fd :| fd in kernel && kernel[fd].ptr == events[i].ptr;
        Target(fd);
        var channel := events[i].ptr;
        channel.revents := events[i].events;
        active := active + [channel];
        i := i + 1;
      }
    }
  }
}
