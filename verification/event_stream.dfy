/** The event stream of an invocation: replay of the stored history, then the live tail. */
module EventStream {
  datatype Item = Item(sequence: nat, event: string)

  /** What the broadcast receiver yields: an item, a notice that items were dropped, or the end. */
  datatype Received = Live(item: Item) | Lagged | Closed

  /** Items `lo + 1` to `hi` of the log; event `k` of the log has sequence number `k`, counted from 1. */
  function Items(log: seq<string>, lo: nat, hi: nat): (r: seq<Item>)
    requires hi <= |log|
    ensures |r| == if lo < hi then hi - lo else 0
    ensures forall i :: 0 <= i < |r| ==> r[i] == Item(lo + 1 + i, log[lo + i])
  {
    seq(if lo < hi then hi - lo else 0, i requires 0 <= i < hi - lo => Item(lo + 1 + i, log[lo + i]))
  }

  /** The query for stored events after a sequence number, in ascending order. */
  function LoadSince(log: seq<string>, after: nat): seq<Item> {
    Items(log, after, |log|)
  }

  /** What the live tail emits once `last` has been seen. */
  function Emit(last: nat, received: seq<Received>): seq<Item>
    decreases |received|
  {
    if received == [] then []
    else match received[0]
      case Live(item) =>
        if item.sequence > last then [item] + Emit(item.sequence, received[1..]) else Emit(last, received[1..])
      case Lagged => Emit(last, received[1..])
      case Closed => []
  }

  /** The item comes after everything seen before it, and the channel was open until then. */
  ghost predicate IsNews(last: nat, received: seq<Received>, item: Item) {
    && item.sequence > last && Closed !in received
    && forall r :: r in received && r.Live? ==> r.item.sequence < item.sequence
  }

  /** One more thing received: a live item is emitted exactly when it is news; a notice of dropped items or the end of
      the channel emits nothing, and a notice does not end the tail. */
  lemma {:induction false} EmitNext(last: nat, received: seq<Received>, next: Received)
    ensures Emit(last, received + [next]) ==
      Emit(last, received) + if next.Live? && IsNews(last, received, next.item) then [next.item] else []
    decreases |received|
  {
    if received == [] {
      assert received + [next] == [next] && [next][1..] == [];
    } else {
      var rest := received[1..];
      assert received == [received[0]] + rest && (received + [next])[1..] == rest + [next];
      match received[0]
      case Live(item) =>
        var seen := if item.sequence > last then item.sequence else last;
        EmitNext(seen, rest, next);
        if next.Live? {
          assert IsNews(last, received, next.item) <==> IsNews(seen, rest, next.item);
        }
      case Lagged =>
        EmitNext(last, rest, next);
        if next.Live? {
          assert IsNews(last, received, next.item) <==> IsNews(last, rest, next.item);
        }
      case Closed => assert Closed in received;
    }
  }

  function LastOr(history: seq<Item>, after: nat): nat {
    if history == [] then after else history[|history| - 1].sequence
  }

  function Output(history: seq<Item>, after: nat, received: seq<Received>): seq<Item> {
    history + Emit(LastOr(history, after), received)
  }

  /** The stream loop, over everything the receiver yields. */
  method StreamEvents(history: seq<Item>, lastHistorySequence: nat, received: seq<Received>) returns (out: seq<Item>)
    requires lastHistorySequence == LastOr(history, lastHistorySequence)
    ensures out == Output(history, lastHistorySequence, received)
  {
    var lastSeen := lastHistorySequence;
    out := [];
    for i := 0 to |history|
      invariant out == history[..i]
      invariant lastSeen == LastOr(history[..i], lastHistorySequence)
    {
      lastSeen := history[i].sequence;
      out := out + [history[i]];
    }
    assert history[..|history|] == history;
    var n := 0;
    while n < |received|
      invariant n <= |received|
      invariant out + Emit(lastSeen, received[n..]) == Output(history, lastHistorySequence, received)
    {
      assert received[n..] == [received[n]] + received[n + 1..];
      match received[n] {
        case Live(item) =>
          if item.sequence > lastSeen {
            assert out + ([item] + Emit(item.sequence, received[n + 1..])) ==
              out + [item] + Emit(item.sequence, received[n + 1..]);
            lastSeen := item.sequence;
            out := out + [item];
          }
        case Lagged =>
        case Closed => return;
      }
      n := n + 1;
    }
  }

  ghost predicate Increasing(items: seq<Item>) {
    forall i, j :: 0 <= i < j < |items| ==> items[i].sequence < items[j].sequence
  }

  lemma {:induction false} EmitIncreasing(last: nat, received: seq<Received>)
    ensures Increasing(Emit(last, received))
    ensures forall i :: 0 <= i < |Emit(last, received)| ==> last < Emit(last, received)[i].sequence
    decreases |received|
  {
    if received != [] {
      match received[0]
      case Live(item) =>
        EmitIncreasing(item.sequence, received[1..]);
        EmitIncreasing(last, received[1..]);
      case Lagged => EmitIncreasing(last, received[1..]);
      case Closed =>
    }
  }

  /** Whatever is pushed, in whatever order and with whatever losses: sequence numbers strictly increase. */
  lemma OutputIncreasing(log: seq<string>, after: nat, received: seq<Received>)
    ensures Increasing(Output(LoadSince(log, after), after, received))
    ensures forall x :: x in Output(LoadSince(log, after), after, received) ==> after < x.sequence
  {
    EmitIncreasing(LastOr(LoadSince(log, after), after), received);
  }

  // ---------------------------------------------------------------------------------------------
  // One producer that appends an event and then pushes it

  /** The stored log, and how many of its events have been pushed. */
  datatype Feed = Feed(log: seq<string>, pushed: nat)

  ghost predicate Produces(a: Feed, b: Feed) {
    || (exists e :: b == Feed(a.log + [e], a.pushed))
    || (a.pushed < |a.log| && b == Feed(a.log, a.pushed + 1))
  }

  ghost predicate Production(feeds: seq<Feed>) {
    && |feeds| > 0 && feeds[0] == Feed([], 0)
    && forall t :: 0 <= t < |feeds| - 1 ==> Produces(feeds[t], feeds[t + 1])
  }

  lemma {:induction false} ProductionGrows(feeds: seq<Feed>, s: nat, t: nat)
    requires Production(feeds) && s <= t < |feeds|
    ensures feeds[s].log <= feeds[t].log && feeds[s].pushed <= feeds[t].pushed <= |feeds[t].log|
  {
    if t > 0 {
      ProductionGrows(feeds, if s < t then s else t - 1, t - 1);
      assert Produces(feeds[t - 1], feeds[t - 1 + 1]);
    }
  }

  function LiveItems(log: seq<string>, lo: nat, hi: nat): (r: seq<Received>)
    requires hi <= |log|
    ensures |r| == if lo < hi then hi - lo else 0
  {
    var items := Items(log, lo, hi);
    seq(|items|, i requires 0 <= i < |items| => Live(items[i]))
  }

  /** The tail of consecutive live items is what lies after the last one seen. */
  lemma {:induction false} EmitConsecutive(log: seq<string>, last: nat, lo: nat, hi: nat)
    requires hi <= |log| && lo <= last
    ensures Emit(last, LiveItems(log, lo, hi)) == Items(log, last, hi)
    decreases hi - lo
  {
    if lo < hi {
      var live := LiveItems(log, lo, hi);
      assert live[0] == Live(Item(lo + 1, log[lo]));
      assert live[1..] == LiveItems(log, lo + 1, hi);
      if lo == last {
        EmitConsecutive(log, last + 1, lo + 1, hi);
        assert Items(log, last, hi) == [Item(lo + 1, log[lo])] + Items(log, last + 1, hi);
      } else {
        EmitConsecutive(log, last, lo + 1, hi);
      }
    }
  }

  function Max(a: nat, b: nat): nat {
    if a < b then b else a
  }

  /** A subscription: subscribe at time `at`, load the history at `loaded`, and read what is pushed until `until`. */
  datatype Session = Session(at: nat, loaded: nat, until: nat)

  ghost predicate InOrder(feeds: seq<Feed>, s: Session) {
    s.at <= s.loaded <= s.until < |feeds|
  }

  function Delivered(feeds: seq<Feed>, s: Session, after: nat): seq<Item>
    requires s.at < |feeds| && s.loaded < |feeds| && s.until < |feeds| && feeds[s.until].pushed <= |feeds[s.until].log|
  {
    Output(LoadSince(feeds[s.loaded].log, after), after,
      LiveItems(feeds[s.until].log, feeds[s.at].pushed, feeds[s.until].pushed))
  }

  /** Subscribing before loading leaves no gap: each event after the resume point is delivered once, in order. */
  lemma ExactlyOnce(feeds: seq<Feed>, s: Session, after: nat)
    requires Production(feeds) && InOrder(feeds, s)
    ensures feeds[s.until].pushed <= |feeds[s.until].log| && |feeds[s.loaded].log| <= |feeds[s.until].log|
    ensures Delivered(feeds, s, after) ==
      Items(feeds[s.until].log, after, Max(|feeds[s.loaded].log|, feeds[s.until].pushed))
  {
    ProductionGrows(feeds, s.at, s.loaded);
    ProductionGrows(feeds, s.loaded, s.until);
    ProductionGrows(feeds, s.at, s.at);
    var log, stored, pushed := feeds[s.until].log, |feeds[s.loaded].log|, feeds[s.until].pushed;
    var history := LoadSince(feeds[s.loaded].log, after);
    assert history == Items(log, after, stored);
    var last := LastOr(history, after);
    assert last == Max(after, stored);
    EmitConsecutive(log, last, feeds[s.at].pushed, pushed);
    assert history + Items(log, last, pushed) == Items(log, after, Max(stored, pushed));
  }

  /** What a client reads of one session before it disconnects: a prefix of what is delivered. */
  datatype Reading = Reading(session: Session, items: seq<Item>)

  ghost predicate ReadOf(feeds: seq<Feed>, r: Reading, after: nat) {
    && InOrder(feeds, r.session) && feeds[r.session.until].pushed <= |feeds[r.session.until].log|
    && r.items <= Delivered(feeds, r.session, after)
  }

  /** A run of consecutive events of the log, from event `lo + 1` on; an empty run is one anywhere. */
  ghost predicate Consecutive(log: seq<string>, items: seq<Item>, lo: nat) {
    items == [] || (lo + |items| <= |log| && items == Items(log, lo, lo + |items|))
  }

  /** What is read of one session is a run of consecutive events of the final log. */
  lemma ReadPiece(feeds: seq<Feed>, r: Reading, after: nat)
    requires Production(feeds) && ReadOf(feeds, r, after)
    ensures Consecutive(feeds[|feeds| - 1].log, r.items, after)
  {
    ExactlyOnce(feeds, r.session, after);
    ProductionGrows(feeds, r.session.until, |feeds| - 1);
  }

  lemma JoinPieces(log: seq<string>, after: nat, a: seq<Item>, b: seq<Item>)
    requires Consecutive(log, a, after) && Consecutive(log, b, after + |a|)
    ensures Consecutive(log, a + b, after)
  {
    if a == [] {
      assert a + b == b;
    } else if b == [] {
      assert a + b == a;
    } else {
      assert Items(log, after, after + |a|) + Items(log, after + |a|, after + |a| + |b|) ==
        Items(log, after, after + |a| + |b|);
    }
  }

  /** Everything the client reads, session after session. */
  function AllRead(readings: seq<Reading>): seq<Item> {
    if readings == [] then [] else readings[0].items + AllRead(readings[1..])
  }

  lemma {:induction false} AllReadNext(readings: seq<Reading>, next: Reading)
    ensures AllRead(readings + [next]) == AllRead(readings) + next.items
  {
    if readings == [] {
      assert [next][1..] == [];
    } else {
      assert (readings + [next])[1..] == readings[1..] + [next];
      AllReadNext(readings[1..], next);
    }
  }

  /** Each session resumes after the last event read so far. */
  ghost predicate Resumes(feeds: seq<Feed>, readings: seq<Reading>, after: nat) {
    readings == [] || (ReadOf(feeds, readings[0], after) && Resumes(feeds, readings[1..], after + |readings[0].items|))
  }

  ghost predicate ReadInPieces(log: seq<string>, readings: seq<Reading>, after: nat) {
    readings == [] ||
      (Consecutive(log, readings[0].items, after) && ReadInPieces(log, readings[1..], after + |readings[0].items|))
  }

  lemma {:induction false} ResumesInPieces(feeds: seq<Feed>, readings: seq<Reading>, after: nat)
    requires Production(feeds) && Resumes(feeds, readings, after)
    ensures ReadInPieces(feeds[|feeds| - 1].log, readings, after)
  {
    if readings != [] {
      ReadPiece(feeds, readings[0], after);
      ResumesInPieces(feeds, readings[1..], after + |readings[0].items|);
    }
  }

  lemma {:induction false} JoinAll(log: seq<string>, readings: seq<Reading>, after: nat)
    requires ReadInPieces(log, readings, after)
    ensures Consecutive(log, AllRead(readings), after)
  {
    if readings != [] {
      JoinAll(log, readings[1..], after + |readings[0].items|);
      JoinPieces(log, after, readings[0].items, AllRead(readings[1..]));
    }
  }

  /** Across any number of reconnects the client reads consecutive events, none twice and none left out. */
  lemma ReconnectsLeaveNoGap(feeds: seq<Feed>, readings: seq<Reading>, after: nat)
    requires Production(feeds) && Resumes(feeds, readings, after)
    ensures Consecutive(feeds[|feeds| - 1].log, AllRead(readings), after)
  {
    ResumesInPieces(feeds, readings, after);
    JoinAll(feeds[|feeds| - 1].log, readings, after);
  }
}
