/** Consuming a queue in batches, and removing duplicates from one. */
module Amqp {
  import opened Options

  /** A published message, which is known by its body; equal messages are told apart by counting. */
  type Message = string

  /** A message as basic_get hands it out, with the number of messages that stayed in the queue. Its
      delivery tag is its place among the channel's outstanding deliveries. */
  datatype Delivery = Delivery(m: Message, messageCount: nat)

  function Messages(ds: seq<Delivery>): (r: seq<Message>)
    ensures |r| == |ds|
  {
    seq(|ds|, i requires 0 <= i < |ds| => ds[i].m)
  }

  lemma MessagesAppend(a: seq<Delivery>, b: seq<Delivery>)
    ensures Messages(a + b) == Messages(a) + Messages(b)
  {
  }

  lemma MessagesOne(d: Delivery)
    ensures Messages([d]) == [d.m]
  {
  }

  lemma MessagesNone()
    ensures Messages([]) == []
  {
  }

  /** All messages there are: in the queue, with the consumer, or acknowledged. */
  ghost function Whole(queue: seq<Message>, unacked: seq<Delivery>, acked: seq<Message>): multiset<Message> {
    multiset(queue) + multiset(Messages(unacked)) + multiset(acked)
  }

  lemma GetConserves(queue: seq<Message>, unacked: seq<Delivery>, acked: seq<Message>, d: Delivery)
    requires queue != [] && d.m == queue[0]
    ensures Whole(queue[1..], unacked + [d], acked) == Whole(queue, unacked, acked)
  {
    MessagesAppend(unacked, [d]);
    assert queue == [queue[0]] + queue[1..];
    assert Messages([d]) == [queue[0]];
  }

  lemma AckConserves(queue: seq<Message>, unacked: seq<Delivery>, acked: seq<Message>)
    ensures Whole(queue, [], acked + Messages(unacked)) == Whole(queue, unacked, acked)
  {
  }

  lemma RejectConserves(queue: seq<Message>, unacked: seq<Delivery>, acked: seq<Message>, i: nat, place: nat)
    requires i < |unacked| && place <= |queue|
    ensures var requeued := queue[..place] + [unacked[i].m] + queue[place..];
      && Whole(requeued, unacked[..i] + unacked[i + 1..], acked) == Whole(queue, unacked, acked)
      && multiset(requeued) == multiset(queue) + multiset{unacked[i].m}
  {
    assert queue == queue[..place] + queue[place..];
    assert unacked == unacked[..i] + [unacked[i]] + unacked[i + 1..];
    MessagesAppend(unacked[..i] + [unacked[i]], unacked[i + 1..]);
    MessagesAppend(unacked[..i], [unacked[i]]);
    MessagesAppend(unacked[..i], unacked[i + 1..]);
    assert Messages([unacked[i]]) == [unacked[i].m];
  }

  /** One queue of the broker with one channel on it. */
  class Broker {
    var queue: seq<Message>
    var unacked: seq<Delivery>
    var acked: seq<Message>
    ghost var published: multiset<Message>
    var gets: nat  // how often basic_get was called, for stopping an observation

    /** Every published message is in the queue, with the consumer, or acknowledged: once. */
    ghost predicate Valid()
      reads this
    {
      Whole(queue, unacked, acked) == published
    }

    constructor (queue: seq<Message>)
      ensures Valid() && this.queue == queue && unacked == [] && acked == [] && published == multiset(queue)
      ensures gets == 0
    {
      this.queue, unacked, acked, gets := queue, [], [], 0;
      published := multiset(queue);
    }

    /** Producers may publish anything before the broker answers. */
    method BasicGet() returns (d: Option<Delivery>)
      requires Valid()
      modifies this
      ensures Valid() && acked == old(acked) && gets == old(gets) + 1
      ensures old(published) <= published
      ensures d.None? ==> queue == old(queue) == [] && unacked == old(unacked)
      // the first of the queue, which is the old queue and what has arrived behind it
      ensures d.Some? ==> old(queue) <= [d.value.m] + queue
      ensures d.Some? ==> unacked == old(unacked) + [d.value] && d.value.messageCount == |queue|
    {
      hide Whole;
      Arrive();
      gets := gets + 1;
      if queue == [] {
        return None;
      }
      d := Some(Delivery(queue[0], |queue| - 1));
      GetConserves(queue, unacked, acked, d.value);
      unacked := unacked + [d.value];
      assert queue == [queue[0]] + queue[1..];
      queue := queue[1..];
    }

    /** Whatever producers publish in the meantime. */
    method Arrive()
      requires Valid()
      modifies this`queue, this`published
      ensures Valid() && old(published) <= published && old(queue) <= queue
    {
      var arriving: seq<Message> := *;
      queue := queue + arriving;
      published := published + multiset(arriving);
    }

    /** What the consumer publishes itself. */
    method Publish(m: Message)
      requires Valid()
      modifies this`queue, this`published
      ensures Valid() && queue == old(queue) + [m] && published == old(published) + multiset{m}
    {
      queue := queue + [m];
      published := published + multiset{m};
    }

    /** basic_ack(0, multiple=True): every outstanding delivery of the channel (section 1.8.3.13 of the
        AMQP 0-9-1 reference). */
    method AckAll()
      requires Valid()
      modifies this`acked, this`unacked
      ensures Valid() && unacked == [] && acked == old(acked) + Messages(old(unacked))
    {
      hide Whole;
      AckConserves(queue, unacked, acked);
      acked := acked + Messages(unacked);
      unacked := [];
    }

    /** basic_reject with requeue: one outstanding delivery goes back to the queue, at whatever place the
        broker chooses. */
    method BasicReject(i: nat)
      requires Valid() && i < |unacked|
      modifies this`queue, this`unacked
      ensures Valid() && unacked == old(unacked)[..i] + old(unacked)[i + 1..]
      ensures multiset(queue) == old(multiset(queue)) + multiset{old(unacked)[i].m}
    {
      hide Whole;
      var place: nat :| place <= |queue|;
      RejectConserves(queue, unacked, acked, i, place);
      queue := queue[..place] + [unacked[i].m] + queue[place..];
      unacked := unacked[..i] + unacked[i + 1..];
    }
  }

  function Flatten<T>(batches: seq<seq<T>>): seq<T>
    decreases |batches|
  {
    if batches == [] then [] else Flatten(batches[..|batches| - 1]) + batches[|batches| - 1]
  }

  lemma FlattenAppend<T>(batches: seq<seq<T>>, batch: seq<T>)
    ensures Flatten(batches + [batch]) == Flatten(batches) + batch
  {
  }

  /** How handle_items ends. `Watching` is no end of it: the loop still runs when the observation stops,
      which it does after `horizon` calls of basic_get. */
  datatype Outcome = BadLimits | Drained | Raised | Watching

  /** The messages that stood in `line` have been taken in their order, and those that have not are the first in
      the queue. */
  ghost predicate Served(line: seq<Message>, taken: seq<Delivery>, queue: seq<Message>) {
    line <= Messages(taken) + queue
  }

  lemma ServesNothing(line: seq<Message>, queue: seq<Message>)
    requires line <= queue
    ensures Served(line, [], queue)
  {
    assert Messages([]) + queue == queue;
  }

  lemma ServesOne(line: seq<Message>, taken: seq<Delivery>, queue: seq<Message>, d: Delivery, after: seq<Message>)
    requires Served(line, taken, queue) && queue <= [d.m] + after
    ensures Served(line, taken + [d], after)
  {
    MessagesAppend(taken, [d]);
    assert Messages([d]) == [d.m];
    assert Messages(taken) + ([d.m] + after) == Messages(taken) + [d.m] + after;
  }

  lemma ServesAll(line: seq<Message>, taken: seq<Delivery>)
    requires Served(line, taken, [])
    ensures |line| <= |taken| && line <= Messages(taken)
  {
    assert Messages(taken) + [] == Messages(taken);
  }

  /** What is still in line after `n` messages. */
  function Rest(line: seq<Message>, n: nat): seq<Message> {
    if n < |line| then line[n..] else []
  }

  lemma ServesBatch(line: seq<Message>, taken: seq<Delivery>, d: Delivery, queue: seq<Message>,
                    more: seq<Delivery>, after: seq<Message>)
    requires Served(line, taken + [d], queue)
    ensures Rest(line, |taken| + 1) <= queue
    ensures Served(Rest(line, |taken| + 1), more, after) ==> Served(line, taken + ([d] + more), after)
  {
    var n := |taken| + 1;
    var front := Messages(taken + [d]);
    if n < |line| {
      assert line == line[..n] + line[n..];
      assert line[..n] == (front + queue)[..n] == front;
    }
    if Served(Rest(line, n), more, after) {
      MessagesAppend(taken + [d], more);
      assert taken + [d] + more == taken + ([d] + more);
      assert front + (Messages(more) + after) == Messages(taken + ([d] + more)) + after;
    }
  }

  /** The inner loop: collect a batch that starts with `first`. */
  method FillBatch(b: Broker, first: Delivery, countdown: Option<int>, limit: int, minSize: int, horizon: nat,
                   ghost line: seq<Message>)
      returns (items: seq<Delivery>, left: Option<int>, watching: bool)
    requires b.Valid() && b.gets <= horizon && minSize <= limit && line <= b.queue
    requires |b.unacked| >= 1 && b.unacked[|b.unacked| - 1] == first
    requires countdown.Some? ==> countdown.value >= 1
    modifies b
    ensures b.Valid() && b.acked == old(b.acked) && old(b.published) <= b.published
    ensures items != [] && b.unacked == old(b.unacked)[..|old(b.unacked)| - 1] + items
    // the batch is what comes next in line, and as many of the line are left as the countdown allows, if they were
    ensures items[0] == first && Served(line, items[1..], b.queue)
    ensures limit >= 1 ==> |items| <= limit
    ensures !watching ==> |items| >= minSize || left == Some(0)
    // it is full unless the queue is empty or the countdown is over, and it does not wait once it is large enough
    ensures !watching ==> |items| >= limit || b.queue == [] || left == Some(0)
    ensures minSize <= 1 ==> b.gets - old(b.gets) <= |items|
    ensures watching ==> b.gets == horizon && left != Some(0)
    ensures old(b.gets) <= b.gets <= horizon
    ensures left.Some? <==> countdown.Some?
    ensures countdown.Some? && |line| < countdown.value ==> |line| < |items| + left.value
    ensures left.Some? ==>
      var k := countdown.value - left.value;
      && 0 <= left.value && 0 <= k && (!watching ==> k >= 1)
      && b.gets - old(b.gets) <= k
      && |items| <= k + (if left.value == 0 then 1 else 0) + (if watching then 1 else 0)
  {
    hide Whole, Messages, Served;
    items, left, watching := [first], countdown, false;
    ServesNothing(line, b.queue);
    assert [first][1..] == [];
    ghost var before := b.unacked[..|b.unacked| - 1];
    while left != Some(0)
      invariant b.Valid() && b.acked == old(b.acked) && old(b.published) <= b.published
      invariant items != [] && b.unacked == before + items && (limit >= 1 ==> |items| <= limit)
      invariant items[0] == first && Served(line, items[1..], b.queue)
      invariant old(b.gets) <= b.gets <= horizon && (minSize <= 1 ==> b.gets - old(b.gets) == |items| - 1)
      invariant left.Some? <==> countdown.Some?
      invariant countdown.Some? && |line| < countdown.value ==>
        |line| < |items| || |line| < |items| + left.value - 1
      invariant left.Some? ==>
        && 0 <= left.value <= countdown.value
        && b.gets - old(b.gets) <= countdown.value - left.value && |items| <= 1 + countdown.value - left.value
      decreases horizon - b.gets
    {
      if b.gets == horizon && |items| < limit {
        watching := true;
        return;
      }
      if left.Some? {
        left := Some(left.value - 1);
      }
      if |items| >= limit {
        return;
      }
      ghost var queue := b.queue;
      var d := b.BasicGet();
      if d.Some? {
        ServesOne(line, items[1..], queue, d.value, b.queue);
        assert (items + [d.value])[1..] == items[1..] + [d.value];
        items := items + [d.value];
      } else {
        ServesAll(line, items[1..]);
        if |items| >= minSize {
          return;
        }
      }
    }
  }

  /** Reject every item of a batch that is all there is outstanding after `kept` deliveries. */
  method RejectAll(b: Broker, items: seq<Delivery>, ghost kept: seq<Delivery>)
    requires b.Valid() && b.unacked == kept + items && items != []
    modifies b`queue, b`unacked
    ensures b.Valid() && b.unacked == kept && b.acked == old(b.acked) && b.published == old(b.published)
    ensures multiset(b.queue) == old(multiset(b.queue)) + multiset(Messages(items))
  {
    hide Whole, Messages;
    MessagesNone();
    for i := 0 to |items|
      invariant b.Valid() && b.unacked == kept + items[i..]
      invariant b.acked == old(b.acked) && b.published == old(b.published)
      invariant multiset(b.queue) == old(multiset(b.queue)) + multiset(Messages(items[..i]))
    {
      b.BasicReject(|b.unacked| - |items| + i);
      assert items[..i + 1] == items[..i] + [items[i]];
      MessagesAppend(items[..i], [items[i]]);
      assert Messages([items[i]]) == [items[i].m] by { MessagesOne(items[i]); }
    }
    assert items[..|items|] == items;
  }

  /** Every batch has between one and `limit` messages, if the limit is at least one, and only the last may
      have fewer than `minSize`, and only if the drain is `over`. */
  ghost predicate Sized(batches: seq<seq<Delivery>>, limit: int, minSize: int, over: bool) {
    && (limit >= 1 ==> forall n :: 0 <= n < |batches| ==> 1 <= |batches[n]| <= limit)
    && (forall n :: 0 <= n < |batches| && |batches[n]| < minSize ==> n == |batches| - 1 && over)
  }

  lemma SizedAppend(batches: seq<seq<Delivery>>, batch: seq<Delivery>, limit: int, minSize: int, over: bool)
    requires Sized(batches, limit, minSize, false)
    requires batch != [] && (limit >= 1 ==> |batch| <= limit) && (|batch| >= minSize || over)
    ensures Sized(batches + [batch], limit, minSize, over)
  {
  }

  datatype BatchEnd = Returned | Blew | Unfinished

  /** One round of the outer loop: collect a batch, call the callback, acknowledge or requeue. */
  method OneBatch(b: Broker, first: Delivery, raises: bool, ack: bool, countdown: Option<int>, limit: int,
                  minSize: int, horizon: nat, ghost line: seq<Message>)
      returns (items: seq<Delivery>, left: Option<int>, end: BatchEnd)
    requires b.Valid() && b.gets <= horizon && minSize <= limit && line <= b.queue
    requires |b.unacked| >= 1 && b.unacked[|b.unacked| - 1] == first && (ack ==> |b.unacked| == 1)
    requires countdown.Some? ==> countdown.value >= 1
    modifies b
    ensures b.Valid() && old(b.published) <= b.published && items != []
    ensures end.Blew? ==> raises && multiset(Messages(items)) <= multiset(b.queue)
    ensures end.Returned? ==> !raises
    ensures items[0] == first && (end.Returned? ==> Served(line, items[1..], b.queue))
    ensures b.acked == old(b.acked) + if end.Returned? && ack then Messages(items) else []
    ensures var kept := old(b.unacked)[..|old(b.unacked)| - 1];
      b.unacked == if end.Blew? || (end.Returned? && ack) then kept else kept + items
    ensures limit >= 1 ==> |items| <= limit
    ensures old(b.gets) <= b.gets <= horizon && (end.Unfinished? ==> b.gets == horizon && left != Some(0))
    ensures !end.Unfinished? ==> |items| >= minSize || left == Some(0)
    ensures end.Returned? ==> |items| >= limit || b.queue == [] || left == Some(0)
    ensures left.Some? <==> countdown.Some?
    ensures countdown.Some? && |line| < countdown.value ==> |line| < |items| + left.value
    ensures left.Some? ==>
      var k := countdown.value - left.value;
      && 0 <= left.value && 0 <= k && (!end.Unfinished? ==> k >= 1)
      && b.gets - old(b.gets) <= k
      && |items| <= k + (if left.value == 0 then 1 else 0) + (if end.Unfinished? then 1 else 0)
  {
    hide Whole, Messages, Served;
    ghost var kept := b.unacked[..|b.unacked| - 1];
    var watching;
    items, left, watching := FillBatch(b, first, countdown, limit, minSize, horizon, line);
    if watching {
      return items, left, Unfinished;
    }
    if raises {
      RejectAll(b, items, kept);
      return items, left, Blew;
    }
    if ack {
      assert b.unacked == items;
      b.AckAll();
    }
    return items, left, Returned;
  }

  /** The arguments of handle_items. `raises(n)` says whether the callback raises on the n-th batch it is
      given, `counts` whether the broker reports how many messages stay in the queue. */
  datatype Config = Config(raises: nat -> bool, ack: bool, limit: int, minSize: int, drain: bool, counts: bool,
                           horizon: nat)

  /** What holds each time the outer loop starts a round. `before` is what was acknowledged at first,
      `drainFrom` the countdown as it was first set. */
  ghost predicate AtHead(c: Config, done: seq<seq<Delivery>>, countdown: Option<int>, drainFrom: Option<int>,
                         gets: nat, before: seq<Message>, acked: seq<Message>, unacked: seq<Delivery>)
  {
    && gets <= c.horizon
    && acked == before + (if c.ack then Messages(Flatten(done)) else [])
    && unacked == (if c.ack then [] else Flatten(done))
    && (forall n :: 0 <= n < |done| ==> !c.raises(n))
    && Sized(done, c.limit, c.minSize, countdown == Some(0))
    && (countdown.Some? <==> drainFrom.Some?)
    && (countdown.Some? ==>
        && c.drain && c.counts && 0 <= countdown.value
        && gets <= 2 * (drainFrom.value - countdown.value)
        && |Flatten(done)| <= drainFrom.value - countdown.value + (if countdown.value == 0 then 1 else 0))
    && (c.drain && c.counts && countdown.None? ==> gets == 0 && done == [])
  }

  /** What holds when it ends, or when the observation stops. */
  ghost predicate AtEnd(c: Config, o: Outcome, done: seq<seq<Delivery>>, last: seq<Delivery>, drainFrom: Option<int>,
                        before: seq<Message>, acked: seq<Message>, unacked: seq<Delivery>)
  {
    && acked == before + (if c.ack then Messages(Flatten(done)) else [])
    && (!o.Watching? ==> unacked == if c.ack then [] else Flatten(done))
    && (forall n :: 0 <= n < |done| ==> !c.raises(n))
    && (o.Raised? ==> last != [] && c.raises(|done|))
    && Sized(done, c.limit, c.minSize, o.Drained? && c.drain && c.counts) && (c.limit >= 1 ==> |last| <= c.limit)
    && (c.drain && c.counts && drainFrom.Some? ==> |Flatten(done)| + |last| <= drainFrom.value + 1)
    && (c.drain && c.counts && o.Watching? ==> c.horizon == 0 || (drainFrom.Some? && c.horizon < 2 * drainFrom.value))
  }

  /** What one round does to the countdown and the counts. */
  ghost predicate RoundCounts(c: Config, countdown: Option<int>, gets: nat, items: seq<Delivery>, left: Option<int>,
                              end: BatchEnd, gets': nat)
  {
    && items != [] && (c.limit >= 1 ==> |items| <= c.limit)
    && (!end.Unfinished? ==> |items| >= c.minSize || left == Some(0))
    && gets < gets' <= c.horizon && (end.Unfinished? ==> gets' == c.horizon && left != Some(0))
    && (left.Some? <==> countdown.Some?)
    && (left.Some? ==>
        var k := countdown.value - left.value;
        && 0 <= left.value && 0 <= k && (!end.Unfinished? ==> k >= 1)
        && gets' - gets <= k + 1
        && |items| <= k + (if left.value == 0 then 1 else 0) + (if end.Unfinished? then 1 else 0))
  }

  lemma RoundGoesOn(c: Config, done: seq<seq<Delivery>>, start: Option<int>, countdown: Option<int>,
                    drainFrom: Option<int>, from: Option<int>, gets: nat, before: seq<Message>, acked: seq<Message>,
                    unacked: seq<Delivery>, items: seq<Delivery>, left: Option<int>, gets': nat)
    requires AtHead(c, done, start, from, gets, before, acked, unacked) && start != Some(0)
    requires if start.None? && c.drain && c.counts
      then countdown.Some? && countdown.value >= 1 && drainFrom == countdown
      else countdown == start && drainFrom == from
    requires RoundCounts(c, countdown, gets, items, left, Returned, gets') && !c.raises(|done|)
    ensures AtHead(c, done + [items], left, drainFrom, gets', before,
                   acked + (if c.ack then Messages(items) else []), unacked + (if c.ack then [] else items))
  {
    FlattenAppend(done, items);
    MessagesAppend(Flatten(done), items);
    SizedAppend(done, items, c.limit, c.minSize, left == Some(0));
  }

  lemma RoundEnds(c: Config, done: seq<seq<Delivery>>, start: Option<int>, countdown: Option<int>,
                  drainFrom: Option<int>, from: Option<int>, gets: nat, before: seq<Message>, acked: seq<Message>,
                  unacked: seq<Delivery>, items: seq<Delivery>, left: Option<int>, end: BatchEnd, gets': nat,
                  unacked': seq<Delivery>)
    requires AtHead(c, done, start, from, gets, before, acked, unacked) && start != Some(0)
    requires if start.None? && c.drain && c.counts
      then countdown.Some? && countdown.value >= 1 && drainFrom == countdown
      else countdown == start && drainFrom == from
    requires RoundCounts(c, countdown, gets, items, left, end, gets') && !end.Returned?
    requires end.Blew? ==> c.raises(|done|) && unacked' == unacked
    ensures AtEnd(c, if end.Blew? then Raised else Watching, done, items, drainFrom, before, acked, unacked')
  {
  }

  lemma HeadWaits(c: Config, done: seq<seq<Delivery>>, countdown: Option<int>, drainFrom: Option<int>, gets: nat,
                  before: seq<Message>, acked: seq<Message>, unacked: seq<Delivery>, gets': nat)
    requires AtHead(c, done, countdown, drainFrom, gets, before, acked, unacked) && !c.drain && gets' <= c.horizon
    ensures AtHead(c, done, countdown, drainFrom, gets', before, acked, unacked)
  {
  }

  lemma HeadEnds(c: Config, o: Outcome, done: seq<seq<Delivery>>, countdown: Option<int>, drainFrom: Option<int>,
                 gets: nat, before: seq<Message>, acked: seq<Message>, unacked: seq<Delivery>)
    requires AtHead(c, done, countdown, drainFrom, gets, before, acked, unacked)
    requires o.Drained? || (o.Watching? && gets == c.horizon && countdown != Some(0))
    ensures AtEnd(c, o, done, [], drainFrom, before, acked, unacked)
  {
  }

  /** Of the messages that stood in `line` when the consumer began, all that are not handled are still the first in
      the queue, and no more of them than the countdown, once it is set. It is set by the first delivery. */
  ghost predicate KeepsUp(c: Config, line: seq<Message>, done: seq<seq<Delivery>>, queue: seq<Message>,
                          countdown: Option<int>, drainFrom: Option<int>)
  {
    && Served(line, Flatten(done), queue)
    && (countdown.Some? ==> 0 <= countdown.value && |line| <= |Flatten(done)| + countdown.value)
    && CountsFrom(c, Flatten(done), drainFrom)
  }

  ghost predicate CountsFrom(c: Config, handled: seq<Delivery>, drainFrom: Option<int>) {
    drainFrom == if c.drain && c.counts && handled != [] then Some(1 + handled[0].messageCount) else None
  }

  lemma KeepsUpFirst(c: Config, line: seq<Message>)
    ensures KeepsUp(c, line, [], line, None, None)
  {
    ServesNothing(line, line);
  }

  /** The countdown of a round: set by the first delivery of a drain. */
  function CountdownOf(c: Config, start: Option<int>, d: Delivery): Option<int> {
    if start.None? && c.drain && c.counts then Some(1 + d.messageCount) else start
  }

  /** `queue` is before the delivery `d`, and `after` behind it. */
  lemma KeepsUpGet(c: Config, line: seq<Message>, done: seq<seq<Delivery>>, queue: seq<Message>, start: Option<int>,
                   from: Option<int>, d: Delivery, after: seq<Message>)
    requires KeepsUp(c, line, done, queue, start, from) && queue <= [d.m] + after && d.messageCount == |after|
    requires start != Some(0)
    ensures var rest, countdown := Rest(line, |Flatten(done)| + 1), CountdownOf(c, start, d);
      rest <= after && (countdown.Some? ==> 1 <= countdown.value && |rest| < countdown.value)
  {
    hide Served, Rest, Flatten, Messages, CountsFrom;
    var taken := Flatten(done);
    ServesOne(line, taken, queue, d, after);
    ServesBatch(line, taken, d, after, [], after);
    ServedLength(line, taken + [d], after);
    RestLength(line, |taken| + 1);
  }

  lemma ServedLength(line: seq<Message>, taken: seq<Delivery>, queue: seq<Message>)
    requires Served(line, taken, queue)
    ensures |line| <= |taken| + |queue|
  {
    hide Messages;
  }

  /** `items` are the batch that starts with it, and `end` is the queue when the batch is done. */
  lemma KeepsUpBatch(c: Config, line: seq<Message>, done: seq<seq<Delivery>>, queue: seq<Message>,
                     start: Option<int>, from: Option<int>, d: Delivery, after: seq<Message>,
                     items: seq<Delivery>, left: Option<int>, end: seq<Message>)
    requires KeepsUp(c, line, done, queue, start, from) && queue <= [d.m] + after && (start.Some? <==> from.Some?)
    requires items != [] && items[0] == d && Served(Rest(line, |Flatten(done)| + 1), items[1..], end)
    requires left.Some? <==> CountdownOf(c, start, d).Some?
    requires left.Some? ==> 0 <= left.value && |Rest(line, |Flatten(done)| + 1)| < |items| + left.value
    ensures KeepsUp(c, line, done + [items], end, left,
                    if start.None? && c.drain && c.counts then CountdownOf(c, start, d) else from)
  {
    hide Served, Messages, Flatten, Rest;
    FlattenAppend(done, items);
    RestLength(line, |Flatten(done)| + 1);
    KeepsUpServed(c, line, done, queue, start, from, d, after, items, end);
  }

  lemma RestLength(line: seq<Message>, n: nat)
    ensures |Rest(line, n)| == if n < |line| then |line| - n else 0
  {
  }

  lemma KeepsUpLast(c: Config, line: seq<Message>, done: seq<seq<Delivery>>, queue: seq<Message>, start: Option<int>,
                    from: Option<int>, d: Delivery, items: seq<Delivery>)
    requires KeepsUp(c, line, done, queue, start, from) && (start.Some? <==> from.Some?)
    requires items != [] && items[0] == d
    ensures CountsFrom(c, Flatten(done) + items,
                       if start.None? && c.drain && c.counts then CountdownOf(c, start, d) else from)
  {
    hide Served, Flatten;
  }

  lemma KeepsUpServed(c: Config, line: seq<Message>, done: seq<seq<Delivery>>, queue: seq<Message>,
                      start: Option<int>, from: Option<int>, d: Delivery, after: seq<Message>,
                      items: seq<Delivery>, end: seq<Message>)
    requires KeepsUp(c, line, done, queue, start, from) && queue <= [d.m] + after
    requires items != [] && items[0] == d && Served(Rest(line, |Flatten(done)| + 1), items[1..], end)
    ensures Served(line, Flatten(done) + items, end)
  {
    hide Served, Messages;
    var taken := Flatten(done);
    ServesOne(line, taken, queue, d, after);
    ServesBatch(line, taken, d, after, items[1..], end);
    assert [d] + items[1..] == items;
  }

  lemma KeptUp(c: Config, line: seq<Message>, done: seq<seq<Delivery>>, queue: seq<Message>, countdown: Option<int>,
               drainFrom: Option<int>)
    requires KeepsUp(c, line, done, queue, countdown, drainFrom)
    ensures CountsFrom(c, Flatten(done) + [], drainFrom) && (drainFrom.Some? ==> c.drain)
    ensures queue == [] || countdown == Some(0) ==> line <= Messages(Flatten(done))
  {
    var all := Messages(Flatten(done));
    assert Flatten(done) + [] == Flatten(done);
    if queue == [] || countdown == Some(0) {
      assert line == (all + queue)[..|line|] && (all + queue)[..|all|] == all;
      assert queue == [] ==> all + queue == all;
      assert |line| <= |all| ==> line == all[..|line|];
    }
  }

  /** The variables of the outer loop: the batches handled, the countdown, and what it was first set to. */
  datatype Loop = Loop(done: seq<seq<Delivery>>, countdown: Option<int>, drainFrom: Option<int>)

  /** What the consumer began with: the messages in line and those acknowledged. */
  datatype Before = Before(line: seq<Message>, acked: seq<Message>)

  ghost predicate Head(c: Config, at: Before, l: Loop, gets: nat, acked: seq<Message>, unacked: seq<Delivery>,
                       queue: seq<Message>)
  {
    && AtHead(c, l.done, l.countdown, l.drainFrom, gets, at.acked, acked, unacked)
    && KeepsUp(c, at.line, l.done, queue, l.countdown, l.drainFrom)
    && (l.countdown.Some? <==> l.drainFrom.Some?) && gets <= c.horizon && (c.ack ==> unacked == [])
  }

  ghost predicate End(c: Config, at: Before, o: Outcome, l: Loop, last: seq<Delivery>, gets: nat, acked: seq<Message>,
                      unacked: seq<Delivery>)
  {
    && AtEnd(c, o, l.done, last, l.drainFrom, at.acked, acked, unacked) && !o.BadLimits?
    && (o.Drained? ==> c.drain && at.line <= Messages(Flatten(l.done)))
    && (o.Watching? ==> gets == c.horizon)
    && CountsFrom(c, Flatten(l.done) + last, l.drainFrom)
  }

  lemma Begins(c: Config, line: seq<Message>, acked: seq<Message>)
    requires AtHead(c, [], None, None, 0, acked, acked, [])
    ensures Head(c, Before(line, acked), Loop([], None, None), 0, acked, [], line)
  {
    KeepsUpFirst(c, line);
  }

  lemma Ends(c: Config, at: Before, o: Outcome, l: Loop, gets: nat, acked: seq<Message>, unacked: seq<Delivery>,
             queue: seq<Message>)
    requires Head(c, at, l, gets, acked, unacked, queue)
    requires if o.Watching? then gets == c.horizon && l.countdown != Some(0)
      else o.Drained? && (l.countdown == Some(0) || (queue == [] && c.drain))
    ensures End(c, at, o, l, [], gets, acked, unacked)
  {
    KeptUp(c, at.line, l.done, queue, l.countdown, l.drainFrom);
    HeadEnds(c, o, l.done, l.countdown, l.drainFrom, gets, at.acked, acked, unacked);
  }

  lemma Waits(c: Config, at: Before, l: Loop, gets: nat, acked: seq<Message>, unacked: seq<Delivery>,
              queue: seq<Message>, gets': nat)
    requires Head(c, at, l, gets, acked, unacked, queue) && !c.drain && gets' <= c.horizon
    ensures Head(c, at, l, gets', acked, unacked, queue)
  {
    HeadWaits(c, l.done, l.countdown, l.drainFrom, gets, at.acked, acked, unacked, gets');
  }

  /** The first message of a round is `d`, from the head of `queue`, and `after` are those behind it. */
  ghost predicate Starts(c: Config, at: Before, l: Loop, gets: nat, acked: seq<Message>, unacked: seq<Delivery>,
                         queue: seq<Message>, d: Delivery, after: seq<Message>)
  {
    && Head(c, at, l, gets, acked, unacked, queue) && l.countdown != Some(0)
    && queue <= [d.m] + after && d.messageCount == |after|
  }

  /** The loop once its countdown is set for the round. */
  function Set(c: Config, l: Loop, d: Delivery): Loop {
    if l.countdown.None? && c.drain && c.counts then
      Loop(l.done, Some(1 + d.messageCount), Some(1 + d.messageCount))
    else
      l
  }

  lemma RoundStarts(c: Config, at: Before, l: Loop, gets: nat, acked: seq<Message>, unacked: seq<Delivery>,
                    queue: seq<Message>, d: Delivery, after: seq<Message>)
    requires Starts(c, at, l, gets, acked, unacked, queue, d, after)
    ensures var rest, countdown := Rest(at.line, |Flatten(l.done)| + 1), Set(c, l, d).countdown;
      rest <= after && (countdown.Some? ==> 1 <= countdown.value && |rest| < countdown.value)
    ensures c.ack ==> unacked == []
  {
    KeepsUpGet(c, at.line, l.done, queue, l.countdown, l.drainFrom, d, after);
  }

  lemma RoundReturns(c: Config, at: Before, l: Loop, gets: nat, acked: seq<Message>, unacked: seq<Delivery>,
                     queue: seq<Message>, d: Delivery, after: seq<Message>, items: seq<Delivery>, left: Option<int>,
                     gets': nat, end: seq<Message>)
    requires Starts(c, at, l, gets, acked, unacked, queue, d, after) && !c.raises(|l.done|)
    requires RoundCounts(c, Set(c, l, d).countdown, gets, items, left, Returned, gets') && items[0] == d
    requires Served(Rest(at.line, |Flatten(l.done)| + 1), items[1..], end)
    requires left.Some? ==> |Rest(at.line, |Flatten(l.done)| + 1)| < |items| + left.value
    ensures Head(c, at, Loop(l.done + [items], left, Set(c, l, d).drainFrom), gets',
                 acked + (if c.ack then Messages(items) else []), unacked + (if c.ack then [] else items), end)
  {
    hide AtHead, Served, Messages, Flatten, Rest, KeepsUp;
    KeepsUpGet(c, at.line, l.done, queue, l.countdown, l.drainFrom, d, after);
    RoundGoesOn(c, l.done, l.countdown, Set(c, l, d).countdown, Set(c, l, d).drainFrom, l.drainFrom, gets, at.acked,
                acked, unacked, items, left, gets');
    KeepsUpBatch(c, at.line, l.done, queue, l.countdown, l.drainFrom, d, after, items, left, end);
  }

  lemma RoundFails(c: Config, at: Before, l: Loop, gets: nat, acked: seq<Message>, unacked: seq<Delivery>,
                   queue: seq<Message>, d: Delivery, after: seq<Message>, items: seq<Delivery>, left: Option<int>,
                   gets': nat, end: BatchEnd, unacked': seq<Delivery>)
    requires Starts(c, at, l, gets, acked, unacked, queue, d, after) && !end.Returned?
    requires RoundCounts(c, Set(c, l, d).countdown, gets, items, left, end, gets') && items[0] == d
    requires end.Blew? ==> c.raises(|l.done|) && unacked' == unacked
    ensures End(c, at, if end.Blew? then Raised else Watching, Set(c, l, d), items, gets', acked, unacked')
  {
    hide AtHead, AtEnd, Served, Messages, Flatten, KeepsUp;
    KeepsUpGet(c, at.line, l.done, queue, l.countdown, l.drainFrom, d, after);
    KeepsUpLast(c, at.line, l.done, queue, l.countdown, l.drainFrom, d, items);
    RoundEnds(c, l.done, l.countdown, Set(c, l, d).countdown, Set(c, l, d).drainFrom, l.drainFrom, gets, at.acked,
              acked, unacked, items, left, end, gets', unacked');
  }

  /** The rest of a round, once its first message is there. `gets`, `unacked` and `queue` are from before that. */
  method Round(b: Broker, c: Config, l: Loop, d: Delivery, ghost at: Before, ghost gets: nat,
               ghost unacked: seq<Delivery>, ghost queue: seq<Message>)
      returns (l': Loop, items: seq<Delivery>, end: BatchEnd)
    requires b.Valid() && Starts(c, at, l, gets, b.acked, unacked, queue, d, b.queue)
    requires c.minSize <= c.limit && b.gets == gets + 1 <= c.horizon && b.unacked == unacked + [d]
    modifies b
    ensures b.Valid() && old(b.published) <= b.published && old(b.gets) <= b.gets <= c.horizon
    ensures end.Returned? ==> Head(c, at, l', b.gets, b.acked, b.unacked, b.queue)
    // the batch that was handled is full unless the queue is empty or the countdown is over
    ensures end.Returned? ==>
      l'.done == l.done + [items] && (|items| >= c.limit || b.queue == [] || l'.countdown == Some(0))
    ensures !end.Returned? ==>
      End(c, at, if end.Blew? then Raised else Watching, l', items, b.gets, b.acked, b.unacked)
    ensures end.Blew? ==> multiset(Messages(items)) <= multiset(b.queue)
  {
    hide Whole, Messages, Head, End, Starts, Served, Rest, Flatten;
    ghost var acked, after, rest := b.acked, b.queue, Rest(at.line, |Flatten(l.done)| + 1);
    RoundStarts(c, at, l, gets, acked, unacked, queue, d, after);
    l' := l;
    if l.countdown.None? && c.drain && c.counts {
      l' := l'.(countdown := Some(1 + d.messageCount), drainFrom := Some(1 + d.messageCount));
    }
    var left;
    assert b.unacked[..|b.unacked| - 1] == unacked;
    items, left, end :=
      OneBatch(b, d, c.raises(|l.done|), c.ack, l'.countdown, c.limit, c.minSize, c.horizon, rest);
    if end.Returned? {
      assert b.unacked == unacked + (if c.ack then [] else items);
      assert b.acked == acked + (if c.ack then Messages(items) else []);
      RoundReturns(c, at, l, gets, acked, unacked, queue, d, after, items, left, b.gets, b.queue);
      l' := Loop(l.done + [items], left, l'.drainFrom);
    } else {
      assert b.acked == acked;
      RoundFails(c, at, l, gets, acked, unacked, queue, d, after, items, left, b.gets, end, b.unacked);
    }
  }

  /** The outer loop. */
  method Consume(b: Broker, c: Config) returns (o: Outcome, l: Loop, last: seq<Delivery>)
    requires b.Valid() && b.unacked == [] && b.gets == 0 && c.minSize <= c.limit
    requires AtHead(c, [], None, None, 0, b.acked, b.acked, [])
    modifies b
    ensures b.Valid() && old(b.published) <= b.published
    ensures End(c, Before(old(b.queue), old(b.acked)), o, l, last, b.gets, b.acked, b.unacked)
    ensures o.Raised? ==> multiset(Messages(last)) <= multiset(b.queue)
  {
    hide Whole, Messages, Head, End;
    last, l := [], Loop([], None, None);
    ghost var at := Before(b.queue, b.acked);
    Begins(c, b.queue, b.acked);
    while l.countdown != Some(0)
      invariant b.Valid() && old(b.published) <= b.published && b.gets <= c.horizon
      invariant Head(c, at, l, b.gets, b.acked, b.unacked, b.queue)
      invariant last == []
      decreases c.horizon - b.gets
    {
      if b.gets == c.horizon {
        Ends(c, at, Watching, l, b.gets, b.acked, b.unacked, b.queue);
        return Watching, l, last;
      }
      ghost var gets, unacked, queue := b.gets, b.unacked, b.queue;
      var d := b.BasicGet();
      if d.None? {
        if c.drain {
          DrainGets(c, at, l, gets, b.acked, unacked, queue, b.gets);
          return Drained, l, last;
        }
        Waits(c, at, l, gets, b.acked, unacked, queue, b.gets);
        continue;
      }
      var items, end;
      l, items, end := Round(b, c, l, d.value, at, gets, unacked, queue);
      if !end.Returned? {
        return if end.Blew? then Raised else Watching, l, items;
      }
    }
    Ends(c, at, Drained, l, b.gets, b.acked, b.unacked, b.queue);
    return Drained, l, last;
  }

  lemma DrainGets(c: Config, at: Before, l: Loop, gets: nat, acked: seq<Message>, unacked: seq<Delivery>,
                  queue: seq<Message>, gets': nat)
    requires Head(c, at, l, gets, acked, unacked, queue) && queue == [] && c.drain
    ensures End(c, at, Drained, l, [], gets', acked, unacked)
  {
    Ends(c, at, Drained, l, gets, acked, unacked, queue);
  }

  /** handle_items. `done` are the batches whose callback returned, `last` one that raised or was not
      finished when the observation stopped. */
  method HandleItems(b: Broker, c: Config)
      returns (o: Outcome, done: seq<seq<Delivery>>, last: seq<Delivery>, drainFrom: Option<int>)
    requires b.Valid() && b.unacked == [] && b.gets == 0
    modifies b
    // limits that make no sense are refused at once
    ensures o.BadLimits? <==> c.limit < c.minSize
    ensures o.BadLimits? ==> b.queue == old(b.queue) && b.acked == old(b.acked) && done == []
    // conservation: Valid says that queue, unacked and acked partition what was published
    ensures b.Valid() && old(b.published) <= b.published
    // exactly the batches whose callback returned are acknowledged; a batch that raised is all requeued
    ensures b.acked == old(b.acked) + if c.ack then Messages(Flatten(done)) else []
    ensures !o.Watching? ==> b.unacked == if c.ack then [] else Flatten(done)
    ensures forall n :: 0 <= n < |done| ==> !c.raises(n)
    ensures o.Raised? ==> c.raises(|done|) && last != [] && multiset(Messages(last)) <= multiset(b.queue)
    // batch sizes
    ensures Sized(done, c.limit, c.minSize, o.Drained? && c.drain && c.counts) && (c.limit >= 1 ==> |last| <= c.limit)
    // it ends only if it drains, and then it has handled, in their order, all messages that were there when it began
    ensures o.Drained? ==> c.drain && old(b.queue) <= Messages(Flatten(done))
    // the countdown starts from the first delivery and the messages left behind it
    ensures drainFrom == var all := Flatten(done) + last;
      if c.drain && c.counts && all != [] then Some(1 + all[0].messageCount) else None
    ensures o.Watching? ==> b.gets == c.horizon
    // a drain ends, whatever producers do, and handles at most one message more than its countdown
    ensures c.drain && c.counts && drainFrom.Some? ==> |Flatten(done)| + |last| <= drainFrom.value + 1
    ensures c.drain && c.counts && o.Watching? ==>
      c.horizon == 0 || (drainFrom.Some? && c.horizon < 2 * drainFrom.value)
  {
    MessagesNone();
    if c.limit < c.minSize {
      return BadLimits, [], [], None;
    }
    var l;
    o, l, last := Consume(b, c);
    done, drainFrom := l.done, l.drainFrom;
  }

  // ------------------------------------------------------------------ removing duplicates

  function AsSet(ms: seq<Message>): set<Message> {
    set m | m in ms
  }

  ghost function Bodies(ms: multiset<Message>): set<Message> {
    set m | m in ms
  }

  lemma AsSetAppend(ms: seq<Message>, m: Message)
    ensures AsSet(ms + [m]) == AsSet(ms) + {m}
  {
  }

  /** How many messages the grab goes for after the first where the broker does not say how many there are. */
  const DEFAULT_MAX := 100 * 1000

  /** The bodies the broker's queue and the consumer hold. */
  ghost function Held(b: Broker): set<Message>
    reads b
  {
    AsSet(b.queue) + AsSet(Messages(b.unacked))
  }

  /** As long as nothing is acknowledged, no message is lost. */
  lemma NothingVanishes(queue: seq<Message>, published: multiset<Message>, b: Broker)
    requires Whole(queue, [], b.acked) == published <= b.published && b.Valid()
    ensures multiset(b.queue) + multiset(Messages(b.unacked)) == multiset(queue) + (b.published - published)
    ensures AsSet(queue) <= Held(b)
  {
    MessagesNone();
    var held := multiset(b.queue) + multiset(Messages(b.unacked));
    assert b.published == held + multiset(b.acked) && published == multiset(queue) + multiset(b.acked);
    assert held == multiset(queue) + (b.published - published);
    forall m | m in queue ensures m in Held(b) {
      assert m in multiset(queue) && m in held;
    }
  }

  ghost predicate AllHold(seen: seq<set<Message>>, bodies: set<Message>) {
    forall i :: 0 <= i < |seen| ==> bodies <= seen[i]
  }

  lemma AllHoldJoin(seen: seq<set<Message>>, later: seq<set<Message>>, bodies: set<Message>, more: set<Message>)
    requires AllHold(seen, bodies) && AllHold(later, more) && bodies <= more
    ensures AllHold(seen + later, bodies)
  {
  }

  lemma OneHolds(bodies: set<Message>)
    ensures AllHold([bodies], bodies)
  {
  }

  lemma UnionAbove(a: set<Message>, b: set<Message>)
    ensures a <= a + b
  {
  }

  /** The grab has taken what stood in `line`, in its order, or the most that it may. Without a limit of its own
      that is one more than the broker counts behind the first, so all that stood in line. */
  ghost predicate Grabbed(line: seq<Message>, taken: seq<Delivery>, limit: Option<int>, counts: bool) {
    && (line <= Messages(taken)
        || (taken != [] && |taken| ==
            if limit.Some? then (if limit.value < 1 then 1 else limit.value)
            else if !counts then 100001
            else if taken[0].messageCount < 1 then 2
            else 1 + taken[0].messageCount))
    && (limit.Some? ==> |taken| <= if limit.value < 1 then 1 else limit.value)
    && (limit.None? && !counts ==> |taken| <= 100001)
    && (limit.None? && counts ==> line <= Messages(taken))
  }

  /** Where the grab stands: `left` is what it still goes for. */
  ghost predicate Grabbing(line: seq<Message>, taken: seq<Delivery>, queue: seq<Message>, limit: Option<int>,
                           counts: bool, left: Option<int>)
  {
    && Served(line, taken, queue)
    && (limit.Some? ==> left == Some(limit.value - |taken|) && (taken == [] || left.value > 0))
    && (limit.None? ==>
        if taken == [] then left.None?
        else
          var most := if counts then taken[0].messageCount else 100000;
          && left == Some(most - |taken| + 1) && (|taken| == 1 || left.value > 0)
          && (counts ==> |line| <= 1 + most))
  }

  lemma GrabGoesOn(line: seq<Message>, taken: seq<Delivery>, queue: seq<Message>, limit: Option<int>, counts: bool,
                   left: Option<int>, d: Delivery, after: seq<Message>)
    requires Grabbing(line, taken, queue, limit, counts, left) && queue <= [d.m] + after && d.messageCount == |after|
    ensures left.None? ==>
      Grabbing(line, taken + [d], after, limit, counts, Some(if counts then d.messageCount else 100000))
    ensures left.Some? && left.value > 1 ==> Grabbing(line, taken + [d], after, limit, counts, Some(left.value - 1))
    ensures left.Some? && left.value <= 1 ==> Grabbed(line, taken + [d], limit, counts)
  {
    ServesOne(line, taken, queue, d, after);
    if taken != [] {
      assert (taken + [d])[0] == taken[0];
    }
    if |line| <= |taken| + 1 {
      assert line == (Messages(taken + [d]) + after)[..|line|] == Messages(taken + [d])[..|line|];
    }
  }

  lemma GrabBegins(line: seq<Message>, limit: Option<int>, counts: bool)
    ensures Grabbing(line, [], line, limit, counts, limit)
    ensures AllHold([], AsSet(line)) && AsSet([]) == {}
  {
    ServesNothing(line, line);
  }

  lemma GrabRunsDry(line: seq<Message>, taken: seq<Delivery>, limit: Option<int>, counts: bool, left: Option<int>)
    requires Grabbing(line, taken, [], limit, counts, left)
    ensures Grabbed(line, taken, limit, counts)
  {
    ServesAll(line, taken);
  }

  /** The first loop of dedup_queue. `seen` is what is held after each call to the broker. */
  method Grab(b: Broker, limit: Option<int>, counts: bool)
      returns (bodies: set<Message>, ghost seen: seq<set<Message>>)
    requires b.Valid() && b.unacked == []
    modifies b
    ensures b.Valid() && b.acked == old(b.acked) && old(b.published) <= b.published
    ensures bodies == AsSet(Messages(b.unacked))
    ensures Grabbed(old(b.queue), b.unacked, limit, counts)
    ensures AllHold(seen, AsSet(old(b.queue)))
  {
    hide Whole, Held, Grabbing, Grabbed, Messages, AsSet, AllHold;
    GrabBegins(b.queue, limit, counts);
    bodies, seen := {}, [];
    var left := limit;
    MessagesNone();
    while true
      invariant b.Valid() && b.acked == old(b.acked) && old(b.published) <= b.published
      invariant bodies == AsSet(Messages(b.unacked))
      invariant Grabbing(old(b.queue), b.unacked, b.queue, limit, counts, left)
      invariant AllHold(seen, AsSet(old(b.queue)))
      decreases left.None?, if left.Some? then left.value else 0
    {
      ghost var unacked, queue := b.unacked, b.queue;
      var d := b.BasicGet();
      NothingVanishes(old(b.queue), old(b.published), b);
      OneHolds(Held(b));
      AllHoldJoin(seen, [Held(b)], AsSet(old(b.queue)), Held(b));
      seen := seen + [Held(b)];
      if d.None? {
        GrabRunsDry(old(b.queue), unacked, limit, counts, left);
        return;
      }
      GrabGoesOn(old(b.queue), unacked, queue, limit, counts, left, d.value, b.queue);
      MessagesAppend(unacked, [d.value]);
      MessagesOne(d.value);
      AsSetAppend(Messages(unacked), d.value.m);
      if d.value.m !in bodies {
        bodies := bodies + {d.value.m};
      }
      if left.None? {
        left := Some(if counts then d.value.messageCount else DEFAULT_MAX);
      } else {
        left := Some(left.value - 1);
        if left.value <= 0 {
          return;
        }
      }
    }
  }

  lemma AllThereIs(b: Broker)
    requires b.Valid()
    ensures Whole(b.queue, b.unacked, b.acked) == b.published
  {
  }

  lemma AsSetGrows(queue: seq<Message>, longer: seq<Message>)
    requires queue <= longer
    ensures AsSet(queue) <= AsSet(longer)
  {
  }

  lemma NothingYet()
    ensures Distinct([]) && AsSet([]) == {}
  {
  }

  lemma NoBodies(ds: seq<Delivery>)
    ensures AsSet(Messages(ds)) == {} ==> ds == []
  {
    assert ds != [] ==> Messages(ds)[0] in AsSet(Messages(ds));
  }

  lemma {:induction false} Cancel(a: multiset<Message>, b: multiset<Message>, c: multiset<Message>)
    requires a + c == b + c
    ensures a == b
  {
    forall m ensures a[m] == b[m] {
      assert (a + c)[m] == (b + c)[m];
    }
  }

  lemma DistinctAppend(ms: seq<Message>, m: Message)
    requires Distinct(ms) && m !in AsSet(ms)
    ensures Distinct(ms + [m])
  {
  }

  /** The second loop: publish every body, in the order the set happens to give. */
  method Republish(b: Broker, bodies: set<Message>)
      returns (sent: seq<Message>, ghost arrived: multiset<Message>, ghost seen: seq<set<Message>>)
    requires b.Valid()
    modifies b`queue, b`published
    ensures b.Valid() && b.published == old(b.published) + multiset(sent) + arrived
    ensures Distinct(sent) && AsSet(sent) == bodies
    ensures AllHold(seen, old(Held(b)))
  {
    hide Whole, AsSet, Messages, Distinct;
    sent, arrived, seen := [], multiset{}, [];
    var todo := bodies;
    NothingYet();
    while todo != {}
      invariant b.Valid() && b.published == old(b.published) + multiset(sent) + arrived
      invariant Distinct(sent) && AsSet(sent) == bodies - todo && todo <= bodies
      invariant old(b.queue) <= b.queue
      invariant AllHold(seen, AsSet(old(b.queue)) + AsSet(Messages(b.unacked)))
      decreases todo
    {
      ghost var published := b.published;
      b.Arrive();
      arrived := arrived + (b.published - published);
      var body :| body in todo;
      b.Publish(body);
      AsSetGrows(old(b.queue), b.queue);
      seen := seen + [Held(b)];
      AsSetAppend(sent, body);
      DistinctAppend(sent, body);
      sent, todo := sent + [body], todo - {body};
    }
  }

  ghost predicate Distinct(ms: seq<Message>) {
    forall i, j :: 0 <= i < j < |ms| ==> ms[i] != ms[j]
  }

  lemma CountOfDistinct(ms: seq<Message>, m: Message)
    requires Distinct(ms)
    ensures multiset(ms)[m] == if m in ms then 1 else 0
  {
    if ms != [] {
      var n := |ms| - 1;
      CountOfDistinct(ms[..n], m);
      assert ms == ms[..n] + [ms[n]];
    }
  }

  /** Taking messages out and putting each of their bodies back once leaves the bodies as they are. */
  lemma BodiesStay(before: multiset<Message>, taken: multiset<Message>, sent: seq<Message>, after: seq<Message>)
    requires taken <= before && Distinct(sent) && (forall m :: m in sent <==> m in taken)
    requires multiset(after) + taken == before + multiset(sent)
    ensures forall m :: m in after <==> m in before
  {
    forall m ensures m in after <==> m in before {
      CountOfDistinct(sent, m);
      assert (multiset(after) + taken)[m] == (before + multiset(sent))[m];
      assert m in after <==> m in multiset(after);
    }
  }

  lemma DedupEnds(first: seq<Message>, acked: seq<Message>, grabbed: seq<Delivery>, during: multiset<Message>,
                  sent: seq<Message>, more: multiset<Message>, last: seq<Message>)
    requires multiset(Messages(grabbed)) <= multiset(first) + during
    requires Whole(last, grabbed, acked) == Whole(first, [], acked) + during + multiset(sent) + more
    requires Distinct(sent) && AsSet(sent) == AsSet(Messages(grabbed))
    ensures AsSet(last) == AsSet(first) + Bodies(during + more)
    ensures multiset(last) + multiset(Messages(grabbed)) == multiset(first) + (during + more) + multiset(sent)
  {
    MessagesNone();
    var before, taken := multiset(first) + during + more, Messages(grabbed);
    assert (multiset(last) + multiset(taken)) + multiset(acked) == (before + multiset(sent)) + multiset(acked);
    Cancel(multiset(last) + multiset(taken), before + multiset(sent), multiset(acked));
    forall m ensures m in sent <==> m in multiset(taken) {
      assert m in sent <==> m in AsSet(sent);
      assert m in taken <==> m in AsSet(taken);
    }
    BodiesStay(before, multiset(taken), sent, last);
  }

  lemma GrabbedAre(line: seq<Message>, taken: seq<Delivery>, limit: Option<int>, counts: bool)
    requires Grabbed(line, taken, limit, counts)
    ensures limit.Some? ==>
      var most := if limit.value < 1 then 1 else limit.value;
      |taken| <= most && (line <= Messages(taken) || |taken| == most)
    ensures limit.None? && !counts ==> |taken| <= 100001 && (line <= Messages(taken) || |taken| == 100001)
    ensures limit.None? && counts ==> line <= Messages(taken)
  {
  }

  /** dedup_queue back to its own queue. `taken` is what it took, `sent` what it put back; `arrived` is what
      producers published meanwhile, and `seen` what was held after each call to the broker. */
  method DedupQueue(b: Broker, limit: Option<int>, counts: bool)
      returns (ghost taken: seq<Message>, sent: seq<Message>, ghost arrived: multiset<Message>,
               ghost seen: seq<set<Message>>)
    requires b.Valid() && b.unacked == []
    modifies b
    ensures b.Valid() && b.unacked == [] && b.acked == old(b.acked) + taken
    ensures b.published == old(b.published) + multiset(sent) + arrived
    // every body taken is put back exactly once
    ensures Distinct(sent) && AsSet(sent) == AsSet(taken)
    // no body ever vanishes, and there are no new ones but those of the producers
    ensures AllHold(seen, AsSet(old(b.queue)))
    ensures AsSet(b.queue) == AsSet(old(b.queue)) + Bodies(arrived)
    ensures multiset(b.queue) + multiset(taken) == old(multiset(b.queue)) + arrived + multiset(sent)
    // what it takes: all that was there, in its order, unless it may not take so many
    ensures limit.Some? ==>
      var most := if limit.value < 1 then 1 else limit.value;
      |taken| <= most && (old(b.queue) <= taken || |taken| == most)
    ensures limit.None? && !counts ==> |taken| <= 100001 && (old(b.queue) <= taken || |taken| == 100001)
    ensures limit.None? && counts ==> old(b.queue) <= taken
  {
    hide Whole, Messages, AsSet, Distinct, Bodies, Broker.Valid, Held, AllHold, Grabbed;
    var bodies;
    ghost var more, later;
    AllThereIs(b);
    bodies, seen := Grab(b, limit, counts);
    taken := Messages(b.unacked);
    GrabbedAre(old(b.queue), b.unacked, limit, counts);
    ghost var during, held := b.published - old(b.published), Held(b);
    NothingVanishes(old(b.queue), old(b.published), b);
    sent, more, later := Republish(b, bodies);
    AllThereIs(b);
    arrived := during + more;
    AllHoldJoin(seen, later, AsSet(old(b.queue)), held);
    seen := seen + later;
    DedupEnds(old(b.queue), b.acked, b.unacked, during, sent, more, b.queue);
    NoBodies(b.unacked);
    MessagesNone();
    if bodies != {} {
      b.AckAll();
      OneHolds(AsSet(b.queue));
      UnionAbove(AsSet(old(b.queue)), Bodies(arrived));
      AllHoldJoin(seen, [AsSet(b.queue)], AsSet(old(b.queue)), AsSet(b.queue));
      seen := seen + [AsSet(b.queue)];
    }
  }
}
