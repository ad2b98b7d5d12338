/** The in-memory stand-in for the SIM7600X that the phone runs against when no module is
    attached: an SMS table numbered by a counter that only grows, a call state that follows
    every request, and a position that drifts while a fix is reported. */
module Simulator {
  import opened Text
  import opened SmsReplies
  import opened GpsReplies
  import opened ModemLogic

  // ---------------------------------------------------------------- the SMS table

  /** Storage indices are positive, strictly increasing along the table and below the
      counter, so the next index handed out is new. */
  ghost predicate Table(ms: seq<SmsMessage>, counter: int)
  {
    (forall i, j :: 0 <= i < j < |ms| ==> ms[i].index < ms[j].index)
    && (forall k :: 0 <= k < |ms| ==> 0 < ms[k].index < counter)
  }

  /** The two messages the simulator starts with. */
  const InitialMessages := [
    SmsMessage(1, "REC READ", "+15551234567", "24/01/01,12:00:00", "Hello! This is a test message."),
    SmsMessage(2, "REC UNREAD", "+15559876543", "24/01/01,12:30:00", "Welcome to PiPhone!")
  ]
  const InitialCounter := 3

  /** The position the simulator starts with: San Francisco, eight satellites, a 3D fix. */
  const InitialPosition := GpsData(37.7749, -122.4194, 10.0, 0.0, 0.0, "2024-01-01 12:00:00", 8, true, 1.2, 3)

  /** The entry `send_sms` stores: the next index, the sent tag, and the time of sending. */
  function SentEntry(counter: int, number: string, message: string, now: string): SmsMessage
  {
    SmsMessage(counter, "STO SENT", number, now, message)
  }

  /** `[s for s in storage if s.index != index]`. */
  function Without(ms: seq<SmsMessage>, index: int): (r: seq<SmsMessage>)
    ensures |r| <= |ms|
  {
    if ms == [] then []
    else if ms[0].index != index then [ms[0]] + Without(ms[1..], index)
    else Without(ms[1..], index)
  }

  /** Deletion drops exactly the entries carrying that index: nothing with the index is
      left, every other entry stays, and nothing new appears. */
  lemma {:induction false} WithoutRemoves(ms: seq<SmsMessage>, index: int)
    ensures forall m :: m in Without(ms, index) <==> m in ms && m.index != index
  {
    if ms != [] {
      WithoutRemoves(ms[1..], index);
      assert ms == [ms[0]] + ms[1..];
    }
  }

  /** Deleting an index the table does not hold leaves the table as it was. */
  lemma {:induction false} WithoutAbsent(ms: seq<SmsMessage>, index: int)
    requires forall k :: 0 <= k < |ms| ==> ms[k].index != index
    ensures Without(ms, index) == ms
  {
    if ms != [] {
      WithoutAbsent(ms[1..], index);
      assert ms == [ms[0]] + ms[1..];
    }
  }

  /** In a table whose indices increase, deleting the index of the `k`-th entry removes
      that entry alone and keeps the others in their order. */
  lemma {:induction false} WithoutEntry(ms: seq<SmsMessage>, counter: int, k: nat)
    requires Table(ms, counter) && k < |ms|
    ensures Without(ms, ms[k].index) == ms[..k] + ms[k + 1..]
  {
    if k == 0 {
      WithoutAbsent(ms[1..], ms[0].index);
      assert ms[1..] == ms[..0] + ms[1..];
    } else {
      assert Table(ms[1..], counter);
      WithoutEntry(ms[1..], counter, k - 1);
      assert ms[1..][k - 1] == ms[k];
      assert ms[1..][..k - 1] + ms[1..][k..] == ms[1..k] + ms[k + 1..];
      assert ms[..k] + ms[k + 1..] == [ms[0]] + (ms[1..k] + ms[k + 1..]);
    }
  }

  /** Putting an entry before a table whose indices all exceed its own keeps the
      indices increasing. */
  lemma PrependKeepsOrder(m: SmsMessage, rest: seq<SmsMessage>)
    requires forall i, j :: 0 <= i < j < |rest| ==> rest[i].index < rest[j].index
    requires forall x :: x in rest ==> m.index < x.index
    ensures forall i, j :: 0 <= i < j < |[m] + rest| ==> ([m] + rest)[i].index < ([m] + rest)[j].index
  {
    var r := [m] + rest;
    forall i, j | 0 <= i < j < |r|
      ensures r[i].index < r[j].index
    {
      assert r[j] == rest[j - 1];
      if i > 0 {
        assert r[i] == rest[i - 1];
      } else {
        assert rest[j - 1] in rest;
      }
    }
  }

  /** Deletion keeps the table well numbered. */
  lemma {:induction false} WithoutKeepsTable(ms: seq<SmsMessage>, counter: int, index: int)
    requires Table(ms, counter)
    ensures Table(Without(ms, index), counter)
  {
    if ms != [] {
      var tail := ms[1..];
      assert Table(tail, counter);
      WithoutKeepsTable(tail, counter, index);
      WithoutRemoves(tail, index);
      var rest := Without(tail, index);
      forall x | x in rest
        ensures ms[0].index < x.index
      {
        var j :| 0 <= j < |tail| && tail[j] == x;
        assert ms[j + 1] == x;
      }
      if ms[0].index != index {
        PrependKeepsOrder(ms[0], rest);
      }
    }
  }

  /** Storing a sent message under the counter, then advancing the counter, keeps the
      table well numbered: the new index exceeds every index already stored. */
  lemma SentKeepsTable(ms: seq<SmsMessage>, counter: int, number: string, message: string, now: string)
    requires Table(ms, counter) && counter > 0
    ensures Table(ms + [SentEntry(counter, number, message, now)], counter + 1)
  {
  }

  /** The counter never hands out an index that is still stored. */
  lemma CounterIsFresh(ms: seq<SmsMessage>, counter: int)
    requires Table(ms, counter)
    ensures forall k :: 0 <= k < |ms| ==> ms[k].index != counter
  {
  }

  // ---------------------------------------------------------------- position drift

  /** The values one call of `get_gps_position` draws: the latitude and longitude nudges,
      the speed, the course, the satellite count and the HDOP. */
  datatype Draw = Draw(dLatitude: real, dLongitude: real, speed: real, course: real, satellites: int, hdop: real)

  /** The ranges `random.uniform` and `random.randint` draw from. */
  predicate InRange(d: Draw)
  {
    -0.0001 <= d.dLatitude <= 0.0001 && -0.0001 <= d.dLongitude <= 0.0001
    && 0.0 <= d.speed <= 5.0 && 0.0 <= d.course <= 360.0
    && 6 <= d.satellites <= 12 && 0.8 <= d.hdop <= 2.5
  }

  /** The record after one call: with a fix, nudged and redrawn as a 3D fix; stamped
      with the time of the call either way. */
  function Drift(g: GpsData, d: Draw, now: string): GpsData
  {
    var h := if g.fixStatus then
      g.(latitude := g.latitude + d.dLatitude, longitude := g.longitude + d.dLongitude,
         speed := d.speed, course := d.course, satellites := d.satellites, hdop := d.hdop, fixType := 3)
    else g;
    h.(timestamp := now)
  }

  /** With a fix, a drifted record moves at most 0.0001 degree on each axis, sees 6 to 12
      satellites and reports an accuracy between 4 and 12.5 metres; without one, only the
      timestamp changes. */
  lemma DriftBounds(g: GpsData, d: Draw, now: string)
    requires InRange(d)
    ensures var h := Drift(g, d, now);
      h.timestamp == now && h.fixStatus == g.fixStatus && h.altitude == g.altitude
      && (g.fixStatus ==>
            -0.0001 <= h.latitude - g.latitude <= 0.0001 && -0.0001 <= h.longitude - g.longitude <= 0.0001
            && 6 <= h.satellites <= 12 && h.fixType == 3
            && 4.0 <= AccuracyMeters(h) <= 12.5)
      && (!g.fixStatus ==> h == g.(timestamp := now))
  {
  }

  // ---------------------------------------------------------------- the simulator

  class Sim7600xSimulator {
    var connected: bool
    var callState: CallState
    var callNumber: string
    var signalStrength: int
    var networkRegistered: bool
    var operatorName: string
    var gps: GpsData
    var storage: seq<SmsMessage>
    var counter: int

    ghost predicate Valid()
      reads this
    {
      Table(storage, counter) && counter > 0
    }

    constructor ()
      ensures Valid()
      ensures connected && callState == Idle && callNumber == ""
      ensures signalStrength == 75 && networkRegistered && operatorName == "Test Network"
      ensures gps == InitialPosition
      ensures storage == InitialMessages && counter == InitialCounter
    {
      connected := true;
      callState := Idle;
      callNumber := "";
      signalStrength := 75;
      networkRegistered := true;
      operatorName := "Test Network";
      gps := InitialPosition;
      storage := InitialMessages;
      counter := InitialCounter;
    }

    /** `connect`: always succeeds. */
    method Connect() returns (ok: bool)
      modifies this`connected
      ensures ok && connected
    {
      connected := true;
      ok := true;
    }

    /** `disconnect`. */
    method Disconnect()
      modifies this`connected
      ensures !connected
    {
      connected := false;
    }

    /** `dial`: always succeeds and records the number as given, punctuation included. */
    method Dial(number: string) returns (ok: bool)
      modifies this`callState, this`callNumber
      ensures ok && callState == Dialing && callNumber == number
    {
      callState := Dialing;
      callNumber := number;
      ok := true;
    }

    /** `answer`: the call becomes active; the number is kept. */
    method Answer() returns (ok: bool)
      modifies this`callState
      ensures ok && callState == Active
    {
      callState := Active;
      ok := true;
    }

    /** `hangup`: back to idle with no number. */
    method Hangup() returns (ok: bool)
      modifies this`callState, this`callNumber
      ensures ok && callState == Idle && callNumber == ""
    {
      callState := Idle;
      callNumber := "";
      ok := true;
    }

    /** `send_sms`: the message is stored as sent under the counter, which then advances. */
    method SendSms(number: string, message: string, now: string) returns (ok: bool)
      requires Valid()
      modifies this`storage, this`counter
      ensures Valid() && ok
      ensures storage == old(storage) + [SentEntry(old(counter), number, message, now)]
      ensures counter == old(counter) + 1
    {
      SentKeepsTable(storage, counter, number, message, now);
      storage := storage + [SentEntry(counter, number, message, now)];
      counter := counter + 1;
      ok := true;
    }

    /** `list_sms`: the whole table, whatever status is asked for. */
    method ListSms(status: string) returns (r: seq<SmsMessage>)
      ensures r == storage
    {
      r := storage;
    }

    /** `read_sms`: the first stored entry with that index, or nothing. */
    method ReadSms(index: int) returns (r: Option<SmsMessage>)
      ensures r.None? <==> forall k :: 0 <= k < |storage| ==> storage[k].index != index
      ensures r.Some? ==> exists k :: 0 <= k < |storage| && storage[k] == r.value && storage[k].index == index
                                      && forall j :: 0 <= j < k ==> storage[j].index != index
    {
      var i := 0;
      while i < |storage|
        invariant 0 <= i <= |storage|
        invariant forall j :: 0 <= j < i ==> storage[j].index != index
      {
        if storage[i].index == index {
          return Some(storage[i]);
        }
        i := i + 1;
      }
      return None;
    }

    /** `delete_sms`: every entry with that index goes, the rest keep their order. */
    method DeleteSms(index: int) returns (ok: bool)
      requires Valid()
      modifies this`storage
      ensures Valid() && ok
      ensures storage == Without(old(storage), index)
    {
      WithoutKeepsTable(storage, counter, index);
      storage := Without(storage, index);
      ok := true;
    }

    /** `gps_power_on`: a 3D fix at once. */
    method GpsPowerOn() returns (ok: bool)
      modifies this`gps
      ensures ok && gps == old(gps).(fixStatus := true, fixType := 3)
    {
      gps := gps.(fixStatus := true, fixType := 3);
      ok := true;
    }

    /** `gps_power_off`: the fix is dropped, the last position kept. */
    method GpsPowerOff() returns (ok: bool)
      modifies this`gps
      ensures ok && gps == old(gps).(fixStatus := false, fixType := 0)
    {
      gps := gps.(fixStatus := false, fixType := 0);
      ok := true;
    }

    /** `get_gps_position`, with the random draws and the clock reading as parameters. */
    method GetGpsPosition(d: Draw, now: string) returns (r: GpsData)
      modifies this`gps
      ensures gps == Drift(old(gps), d, now) && r == gps
    {
      if gps.fixStatus {
        gps := gps.(latitude := gps.latitude + d.dLatitude, longitude := gps.longitude + d.dLongitude,
                    speed := d.speed, course := d.course, satellites := d.satellites, hdop := d.hdop, fixType := 3);
      }
      gps := gps.(timestamp := now);
      r := gps;
    }
  }
}
