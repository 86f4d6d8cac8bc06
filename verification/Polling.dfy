/**
 The pass-update polling protocol: apple_jobs.go lists the serials of a device updated after a time,
 apple.go cuts the newest of those times to whole seconds and hands it back as the tag the device
 echoes. Times are nanoseconds since the Unix epoch.
 */
module Polling {
  import opened Decimal
  import opened Wrappers

  const SECOND := 1_000_000_000
  /** Go's zero time, which means "no time given". */
  const ZERO_TIME := -62_135_596_800 * SECOND

  /** The time a passesUpdatedSince parameter stands for; rfc3339 is time.Parse's answer on it. */
  function SinceOf(q: string, rfc3339: Option<int>): int {
    if q == "" then ZERO_TIME
    else if Atoi(q).Some? then Atoi(q).value * SECOND
    else if rfc3339.Some? then rfc3339.value
    else ZERO_TIME
  }

  /** The tag handed out is read back as its second; a text that is neither number nor time asks for everything. */
  lemma TagIsReadBack(n: int, q: string, rfc3339: Option<int>)
    requires IsInt64(n)
    ensures SinceOf(FormatInt(n), rfc3339) == n * 1_000_000_000
    ensures q != "" && Atoi(q).None? ==> SinceOf(q, rfc3339) == rfc3339.UnwrapOr(ZERO_TIME)
    ensures SinceOf("", rfc3339) == ZERO_TIME
  {
    AtoiOfFormatInt(n);
    assert FormatInt(n) != "";
  }

  /** Serials the device is registered for and that changed after the given time. */
  function Updated(updatedAt: map<string, int>, registered: set<string>, since: int): set<string> {
    set s | s in registered && s in updatedAt && (since == ZERO_TIME || updatedAt[s] > since)
  }

  /** What the list query answers: exactly those serials, once each, oldest change first, and the newest change. */
  ghost predicate Lists(updatedAt: map<string, int>, registered: set<string>, since: int, serials: seq<string>,
                        last: int) {
    && (forall s :: s in serials <==> s in Updated(updatedAt, registered, since))
    && (forall i, j :: 0 <= i < j < |serials| ==> serials[i] != serials[j])
    && (forall i, j :: 0 <= i < j < |serials| && serials[i] in updatedAt && serials[j] in updatedAt ==>
          updatedAt[serials[i]] <= updatedAt[serials[j]])
    && (serials == [] ==> last == ZERO_TIME)
    && (serials != [] && serials[|serials| - 1] in updatedAt ==> last == updatedAt[serials[|serials| - 1]])
  }

  /** The response: none when no serial changed, otherwise the new tag and the serials. */
  datatype Response = NoContent | Content(lastUpdated: string, serials: seq<string>)

  function Respond(serials: seq<string>, last: int): Response {
    if serials == [] then NoContent else Content(FormatInt(last / SECOND), serials)
  }

  /** The serials a response carries. */
  function Sent(response: Response): seq<string> {
    if response.Content? then response.serials else []
  }

  lemma OldestExists(todo: set<string>, updatedAt: map<string, int>)
    requires todo != {} && todo <= updatedAt.Keys
    ensures exists s :: s in todo && forall d :: d in todo ==> updatedAt[s] <= updatedAt[d]
  {
    var x :| x in todo;
    if todo != {x} {
      OldestExists(todo - {x}, updatedAt);
      var y :| y in todo - {x} && forall d :: d in todo - {x} ==> updatedAt[y] <= updatedAt[d];
      var s := if updatedAt[x] <= updatedAt[y] then x else y;
      assert s in todo && forall d :: d in todo ==> updatedAt[s] <= updatedAt[d];
    }
  }

  /** The rows read so far, oldest change first, all of them no newer than what is left. */
  ghost predicate Scanned(updatedAt: map<string, int>, rows: set<string>, todo: set<string>, serials: seq<string>,
                          last: int) {
    && todo <= rows <= updatedAt.Keys
    && (forall s :: s in serials <==> s in rows - todo)
    && (forall i :: 0 <= i < |serials| ==> serials[i] in rows)
    && (forall i, j :: 0 <= i < j < |serials| ==>
          serials[i] != serials[j] && updatedAt[serials[i]] <= updatedAt[serials[j]])
    && (forall i, d :: 0 <= i < |serials| && d in todo ==> updatedAt[serials[i]] <= updatedAt[d])
    && last == if serials == [] then ZERO_TIME else updatedAt[serials[|serials| - 1]]
  }

  lemma OneMoreSerial(updatedAt: map<string, int>, rows: set<string>, todo: set<string>, serials: seq<string>,
                      last: int, id: string)
    requires Scanned(updatedAt, rows, todo, serials, last)
    requires id in todo && updatedAt[id] > ZERO_TIME && forall d :: d in todo ==> updatedAt[id] <= updatedAt[d]
    ensures Scanned(updatedAt, rows, todo - {id}, serials + [id], if updatedAt[id] > last then updatedAt[id] else last)
  {
    assert id !in serials;
    assert forall s :: s in serials + [id] <==> s in serials || s == id;
  }

  class PassServer {
    var updatedAt: map<string, int>
    /** Push tokens by (device, serial). */
    var devices: map<(string, string), string>

    const passTypeId: string

    constructor (passTypeId: string)
      ensures updatedAt == map[] && devices == map[] && this.passTypeId == passTypeId
    {
      updatedAt, devices := map[], map[];
      this.passTypeId := passTypeId;
    }

    function RegisteredOn(device: string): set<string>
      reads this
    {
      set k | k in devices && k.0 == device :: k.1
    }

    method RegisterAppleDevice(serial: string, device: string, pushToken: string)
      modifies this`devices
      ensures devices == old(devices)[(device, serial) := pushToken]
    {
      devices := devices[(device, serial) := pushToken];
    }

    method UnregisterAppleDevice(serial: string, device: string)
      modifies this`devices
      ensures devices == old(devices) - {(device, serial)}
    {
      devices := devices - {(device, serial)};
    }

    method ListUpdatedSerials(device: string, since: int) returns (serials: seq<string>, last: int)
      requires forall s :: s in updatedAt ==> updatedAt[s] > ZERO_TIME
      ensures Lists(updatedAt, RegisteredOn(device), since, serials, last)
    {
      var rows := Updated(updatedAt, RegisteredOn(device), since);
      var todo := rows;
      serials, last := [], ZERO_TIME;
      while todo != {}
        invariant Scanned(updatedAt, rows, todo, serials, last)
        decreases |todo|
      {
        OldestExists(todo, updatedAt);
        var id :| id in todo && forall d :: d in todo ==> updatedAt[id] <= updatedAt[d];
        OneMoreSerial(updatedAt, rows, todo, serials, last, id);
        serials := serials + [id];
        if updatedAt[id] > last {
          last := updatedAt[id];
        }
        todo := todo - {id};
      }
    }

    method AppleUpdated(device: string, passType: string, q: string, rfc3339: Option<int>) returns (response: Response)
      requires forall s :: s in updatedAt ==> updatedAt[s] > ZERO_TIME
      ensures passType != passTypeId ==> response == NoContent
      ensures passType == passTypeId ==> exists serials, last ::
                Lists(updatedAt, RegisteredOn(device), SinceOf(q, rfc3339), serials, last)
                    && response == Respond(serials, last)
    {
      if passType != passTypeId {
        return NoContent;
      }
      var since := ZERO_TIME;
      if q != "" {
        var n := Atoi(q);
        if n.Some? {
          since := n.value * SECOND;
        } else if rfc3339.Some? {
          since := rfc3339.value;
        }
      }
      var serials, last := ListUpdatedSerials(device, since);
      assert Lists(updatedAt, RegisteredOn(device), SinceOf(q, rfc3339), serials, last);
      if |serials| == 0 {
        return NoContent;
      }
      return Content(FormatInt(last / SECOND), serials);
    }
  }

  // ---- one device polling, over any run ----------------------------------------------------------

  /**
   The server as one device sees it, with two notes on the side: which serials were updated since its
   previous poll, and which were sent to it and not updated since.
   */
  datatype World = World(
    updatedAt: map<string, int>,
    registered: set<string>,
    tag: string,
    changed: set<string>,
    sent: set<string>
  )

  /** An update's time is drawn inside its transaction, so updates may be published out of time order. */
  datatype Event =
    | Update(serial: string, at: int)
    | Register(serial: string)
    | Unregister(serial: string)
    | Poll(serials: seq<string>, last: int)

  /** A stored time: after 1970, its nanoseconds in 64 bits. */
  predicate Stored(at: int) {
    0 <= at && IsInt64(at)
  }

  ghost predicate Enabled(w: World, e: Event) {
    match e
    case Update(_, at) => Stored(at)
    case Register(s) => s in w.updatedAt
    case Unregister(_) => true
    case Poll(serials, last) => Lists(w.updatedAt, w.registered, SinceOf(w.tag, None), serials, last)
  }

  function Next(w: World, e: Event): World {
    match e
    case Update(s, at) =>
      w.(updatedAt := w.updatedAt[s := at], changed := w.changed + {s}, sent := w.sent - {s})
    case Register(s) => w.(registered := w.registered + {s})
    case Unregister(s) => w.(registered := w.registered - {s})
    case Poll(serials, last) =>
      var response := Respond(serials, last);
      w.(tag := if response.Content? then response.lastUpdated else w.tag,
         changed := {}, sent := w.sent + set s | s in Sent(response))
  }

  ghost function Exec(w: World, events: seq<Event>): Option<World> {
    if events == [] then Some(w)
    else
      var before := Exec(w, events[..|events| - 1]);
      var e := events[|events| - 1];
      if before.Some? && Enabled(before.value, e) then Some(Next(before.value, e)) else None
  }

  /** A device that has never polled. */
  ghost predicate NewDevice(w: World) {
    w.tag == "" && w.sent == {} && forall s :: s in w.updatedAt ==> Stored(w.updatedAt[s])
  }

  /** Every update bears a time after the start of the second that the device's tag names. */
  ghost predicate Timely(w: World, events: seq<Event>) {
    events == [] ||
    var front, e := events[..|events| - 1], events[|events| - 1];
    && Timely(w, front)
    && (e.Update? && Exec(w, front).Some? ==> e.at > SinceOf(Exec(w, front).value.tag, None))
  }

  /** The tag is a whole second, and what was sent and not updated since lies before that second's end. */
  ghost predicate TagHolds(w: World) {
    && (forall s :: s in w.updatedAt ==> Stored(w.updatedAt[s]))
    && w.sent <= w.updatedAt.Keys
    && if w.tag == "" then w.sent == {}
       else
         Atoi(w.tag).Some? &&
         var t := Atoi(w.tag).value;
         t >= 0 && forall s :: s in w.sent ==> w.updatedAt[s] < (t + 1) * SECOND
  }

  ghost predicate ChangedAfterTag(w: World) {
    forall s :: s in w.changed && s in w.updatedAt && w.tag != "" ==> w.updatedAt[s] > SinceOf(w.tag, None)
  }

  lemma ListedAreUpTo(updatedAt: map<string, int>, registered: set<string>, since: int, serials: seq<string>, last: int)
    requires Lists(updatedAt, registered, since, serials, last) && serials != []
    ensures forall s :: s in serials ==> s in updatedAt && updatedAt[s] <= last
    ensures serials[|serials| - 1] in updatedAt && updatedAt[serials[|serials| - 1]] == last
  {
    var newest := serials[|serials| - 1];
    assert newest in serials;
    assert newest in Updated(updatedAt, registered, since);
    forall s | s in serials ensures s in updatedAt && updatedAt[s] <= last {
      assert s in Updated(updatedAt, registered, since);
      var i :| 0 <= i < |serials| && serials[i] == s;
      assert i < |serials| - 1 ==> updatedAt[serials[i]] <= updatedAt[newest];
    }
  }

  lemma SecondHolds(at: int, last: int)
    requires 0 <= at <= last
    ensures last / SECOND >= 0 && at < (last / SECOND + 1) * SECOND
  {
  }

  lemma PollKeepsTag(w: World, serials: seq<string>, last: int)
    requires TagHolds(w) && Enabled(w, Poll(serials, last))
    ensures TagHolds(Next(w, Poll(serials, last)))
  {
    if serials != [] {
      var u := Next(w, Poll(serials, last));
      ListedAreUpTo(w.updatedAt, w.registered, SinceOf(w.tag, None), serials, last);
      AtoiOfFormatInt(last / SECOND);
      assert FormatInt(last / SECOND) != "";
      SecondHolds(last, last);
      forall s | s in u.sent ensures s in w.updatedAt && w.updatedAt[s] < (last / SECOND + 1) * SECOND {
        SentBefore(w, serials, last, s);
      }
    }
  }

  lemma SentBefore(w: World, serials: seq<string>, last: int, s: string)
    requires TagHolds(w) && Enabled(w, Poll(serials, last)) && serials != [] && (s in w.sent || s in serials)
    ensures s in w.updatedAt && w.updatedAt[s] < (last / SECOND + 1) * SECOND
  {
    ListedAreUpTo(w.updatedAt, w.registered, SinceOf(w.tag, None), serials, last);
    if s in serials {
      SecondHolds(w.updatedAt[s], last);
    } else {
      var newest := serials[|serials| - 1];
      assert newest in serials && newest in Updated(w.updatedAt, w.registered, SinceOf(w.tag, None));
      TagNeverFalls(Atoi(w.tag).value, last);
    }
  }

  lemma TagNeverFalls(t: int, last: int)
    requires last > t * SECOND
    ensures (t + 1) * SECOND <= (last / SECOND + 1) * SECOND
  {
  }

  lemma EventKeepsTag(w: World, e: Event)
    requires TagHolds(w) && Enabled(w, e)
    ensures TagHolds(Next(w, e))
  {
    if e.Poll? {
      PollKeepsTag(w, e.serials, e.last);
    }
  }

  lemma {:induction false} RunKeepsTag(w: World, events: seq<Event>)
    requires NewDevice(w) && Exec(w, events).Some?
    ensures TagHolds(Exec(w, events).value)
    ensures Timely(w, events) ==> ChangedAfterTag(Exec(w, events).value)
  {
    if events != [] {
      RunKeepsTag(w, events[..|events| - 1]);
      EventKeepsTag(Exec(w, events[..|events| - 1]).value, events[|events| - 1]);
    }
  }

  /**
   Polling loses nothing when updates are timely: at every poll the device gets each serial it is
   registered for that was updated since its previous poll, although the tag is cut to whole seconds.
   */
  lemma {:induction false} PollingLosesNothing(w: World, events: seq<Event>, serials: seq<string>, last: int)
    requires NewDevice(w) && Exec(w, events).Some? && Enabled(Exec(w, events).value, Poll(serials, last))
    requires Timely(w, events)
    ensures var m := Exec(w, events).value;
            forall s :: s in m.changed && s in m.registered && s in m.updatedAt ==> s in Sent(Respond(serials, last))
  {
    RunKeepsTag(w, events);
    var m := Exec(w, events).value;
    forall s | s in m.changed && s in m.registered && s in m.updatedAt ensures s in Sent(Respond(serials, last)) {
      assert s in serials <==> s in Updated(m.updatedAt, m.registered, SinceOf(m.tag, None));
    }
  }

  /** Every update bears a later time than all that are stored. */
  ghost predicate Increasing(w: World, events: seq<Event>) {
    events == [] ||
    var front, e := events[..|events| - 1], events[|events| - 1];
    && Increasing(w, front)
    && (e.Update? && Exec(w, front).Some? ==>
          var m := Exec(w, front).value;
          forall s :: s in m.updatedAt ==> e.at > m.updatedAt[s])
  }

  /** Some stored time is not before the tag's second. */
  ghost predicate TagBehind(w: World) {
    w.tag != "" ==> exists s :: s in w.updatedAt && w.updatedAt[s] >= SinceOf(w.tag, None)
  }

  lemma PollKeepsTagBehind(w: World, serials: seq<string>, last: int)
    requires TagHolds(w) && TagBehind(w) && Enabled(w, Poll(serials, last))
    ensures TagBehind(Next(w, Poll(serials, last)))
  {
    if serials != [] {
      var newest := serials[|serials| - 1];
      assert newest in serials;
      assert newest in Updated(w.updatedAt, w.registered, SinceOf(w.tag, None));
      AtoiOfFormatInt(last / SECOND);
      assert w.updatedAt[newest] >= last / SECOND * SECOND;
    }
  }

  /** Times that strictly increase in publication order are timely. */
  lemma {:induction false} IncreasingIsTimely(w: World, events: seq<Event>)
    requires NewDevice(w) && Exec(w, events).Some? && Increasing(w, events)
    ensures Timely(w, events) && TagBehind(Exec(w, events).value)
  {
    if events != [] {
      var front, e := events[..|events| - 1], events[|events| - 1];
      IncreasingIsTimely(w, front);
      RunKeepsTag(w, front);
      var m := Exec(w, front).value;
      if e.Poll? {
        PollKeepsTagBehind(m, e.serials, e.last);
      } else if e.Update? {
        assert m.tag != "" ==> e.at > SinceOf(m.tag, None);
        assert e.serial in Next(m, e).updatedAt;
      }
    }
  }

  /** Whatever the order of times, what a poll sends again unchanged was updated within the second the tag names. */
  lemma {:induction false} ResentIsOfTheTagsSecond(w: World, events: seq<Event>, serials: seq<string>, last: int,
                                                   s: string)
    requires NewDevice(w) && Exec(w, events).Some? && Enabled(Exec(w, events).value, Poll(serials, last))
    requires s in Sent(Respond(serials, last)) && s in Exec(w, events).value.sent
    ensures var m := Exec(w, events).value;
            Atoi(m.tag).Some? && s in m.updatedAt &&
            var t := Atoi(m.tag).value;
            t * SECOND < m.updatedAt[s] < (t + 1) * SECOND
  {
    RunKeepsTag(w, events);
    var m := Exec(w, events).value;
    assert s in Updated(m.updatedAt, m.registered, SinceOf(m.tag, None));
  }

  /**
   Timeliness is needed, one update at a time: after any run, an update that the next poll follows is
   sent to a device that has a tag exactly when its time is after the start of the tag's second.
   */
  lemma {:induction false} UpdateIsSentExactly(w: World, events: seq<Event>, s: string, at: int,
                                               serials: seq<string>, last: int)
    requires NewDevice(w) && Exec(w, events).Some? && s in Exec(w, events).value.registered && Stored(at)
    requires Enabled(Next(Exec(w, events).value, Update(s, at)), Poll(serials, last))
    ensures var m := Exec(w, events).value;
            s in Sent(Respond(serials, last)) <==> m.tag == "" || (Atoi(m.tag).Some? && at > Atoi(m.tag).value * SECOND)
  {
    RunKeepsTag(w, events);
    var u := Next(Exec(w, events).value, Update(s, at));
    assert s in serials <==> s in Updated(u.updatedAt, u.registered, SinceOf(u.tag, None));
  }

  /**
   Two passes updated out of time order: one is updated and polled for, then the other is published
   with an earlier time. The next poll sends the other exactly when both lie in one second.
   */
  lemma {:induction false} LateUpdateIsLost(w: World, a: string, b: string, x: int, y: int, one: seq<string>, last: int,
                         two: seq<string>, last2: int)
    requires NewDevice(w) && a != b && {a, b} == w.registered && a in w.updatedAt && b in w.updatedAt
    requires w.updatedAt[b] <= x && Stored(x) && Stored(y) && y <= x && y % SECOND != 0
    requires var run := [] + [Update(a, x)] + [Poll(one, last)] + [Update(b, y)];
             Exec(w, run).Some? && Enabled(Exec(w, run).value, Poll(two, last2))
    ensures b in Sent(Respond(two, last2)) <==> y / SECOND == x / SECOND
  {
    var r0: seq<Event> := [];
    var r1 := r0 + [Update(a, x)];
    var r2 := r1 + [Poll(one, last)];
    var r3 := r2 + [Update(b, y)];
    assert r1[..0] == r0 && r2[..1] == r1 && r3[..2] == r2;
    assert Exec(w, r0) == Some(w);
    var w1 := Next(w, Update(a, x));
    assert Exec(w, r1) == Some(w1);
    assert Exec(w, r2) == Some(Next(w1, Poll(one, last)));
    NewestIsLast(w1, one, last, a, x);
    AtoiOfFormatInt(x / SECOND);
    assert FormatInt(x / SECOND) != "";
    UpdateIsSentExactly(w, r2, b, y, two, last2);
    assert Exec(w, r3) == Some(Next(Exec(w, r2).value, Update(b, y)));
    SecondsCompare(x, y);
  }

  lemma NewestIsLast(w: World, serials: seq<string>, last: int, a: string, x: int)
    requires w.tag == "" && Enabled(w, Poll(serials, last)) && a in w.registered && a in w.updatedAt
        && w.updatedAt[a] == x
    requires forall s :: s in w.registered && s in w.updatedAt ==> w.updatedAt[s] <= x
    ensures serials != [] && last == x
  {
    assert a in serials <==> a in Updated(w.updatedAt, w.registered, ZERO_TIME);
    var newest := serials[|serials| - 1];
    assert newest in serials;
    assert newest in Updated(w.updatedAt, w.registered, ZERO_TIME);
    var i :| 0 <= i < |serials| && serials[i] == a;
    assert i < |serials| - 1 ==> w.updatedAt[serials[i]] <= w.updatedAt[newest];
  }

  lemma SecondsCompare(x: int, y: int)
    requires 0 <= y <= x && y % SECOND != 0
    ensures y > x / SECOND * SECOND <==> y / SECOND == x / SECOND
  {
  }

  /** The first poll of a new device lists everything it is registered for. */
  lemma FirstPollListsAll(w: World, serials: seq<string>, last: int)
    requires NewDevice(w) && Enabled(w, Poll(serials, last))
    ensures forall s :: s in w.registered && s in w.updatedAt <==> s in Sent(Respond(serials, last))
  {
    forall s ensures s in w.registered && s in w.updatedAt <==> s in Sent(Respond(serials, last)) {
      assert s in serials <==> s in Updated(w.updatedAt, w.registered, ZERO_TIME);
    }
  }
}
