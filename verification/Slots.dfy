/** Hourly inventory slots: capacity arithmetic and the expansion of a time range into slots. */
module Slots {
  import opened Common

  /** Instants are wall-clock microseconds; a slot is one clock hour of one surface. */
  const MICROS_PER_HOUR: int := 3_600_000_000

  /** The columns of the uniqueness constraint on inventory slots. */
  datatype SlotKey = SlotKey(surface: string, date: int, hour: int)

  datatype SlotStatus = Available | Limited | SoldOut | Blocked

  datatype Slot = Slot(
    total: nat,
    booked: int,
    reserved: int,
    internalBlocked: nat,
    emergencyBlocked: nat,
    status: SlotStatus)
  {
    function Taken(): int {
      booked + reserved + internalBlocked
    }

    function AvailableCapacity(): nat {
      if emergencyBlocked > 0 then 0 else Max(0, total - booked - reserved - internalBlocked)
    }

    function RecomputeStatus(): SlotStatus {
      if emergencyBlocked > 0 then Blocked
      else if Taken() >= total then SoldOut
      else if Taken() > 0 then Limited
      else SlotStatus.Available
    }

    /** The slot with its derived status column brought up to date. */
    function Stamped(): Slot {
      this.(status := RecomputeStatus())
    }
  }

  /** A row inserted on demand: no counters, and the column default for its status. */
  function NewSlot(total: nat): Slot {
    Slot(total, 0, 0, 0, 0, SlotStatus.Available)
  }

  function HourOf(t: int): int {
    t / MICROS_PER_HOUR
  }

  /** The slot of the h-th hour since day zero. */
  function KeyOfHour(surface: string, h: int): SlotKey {
    SlotKey(surface, h / 24, h % 24)
  }

  /** The slots of the whole hours in [from, upto). */
  function HourKeys(surface: string, from: int, upto: int): seq<SlotKey>
    decreases upto - from
  {
    if upto <= from then [] else HourKeys(surface, from, upto - 1) + [KeyOfHour(surface, upto - 1)]
  }

  lemma {:induction false} HourKeysAt(surface: string, from: int, upto: int)
    ensures |HourKeys(surface, from, upto)| == Max(0, upto - from)
    ensures forall i :: 0 <= i < upto - from ==> HourKeys(surface, from, upto)[i] == KeyOfHour(surface, from + i)
    decreases upto - from
  {
    if from < upto {
      HourKeysAt(surface, from, upto - 1);
      forall i | 0 <= i < upto - from ensures HourKeys(surface, from, upto)[i] == KeyOfHour(surface, from + i) {
        if i == upto - from - 1 {
          assert from + i == upto - 1;
        }
      }
    }
  }

  lemma SameKeySameHour(surface: string, a: int, b: int)
    requires KeyOfHour(surface, a) == KeyOfHour(surface, b)
    ensures a == b
  {
    assert a == 24 * (a / 24) + a % 24;
    assert b == 24 * (b / 24) + b % 24;
  }

  /** The expansion never names a slot twice. */
  lemma HourKeysDistinct(surface: string, from: int, upto: int)
    ensures Distinct(HourKeys(surface, from, upto))
  {
    var keys := HourKeys(surface, from, upto);
    HourKeysAt(surface, from, upto);
    forall i, j | 0 <= i < j < |keys| ensures keys[i] != keys[j] {
      if keys[i] == keys[j] {
        SameKeySameHour(surface, from + i, from + j);
        assert false;
      }
    }
  }

  /** The expansion names exactly the slots whose hour lies in the range. */
  lemma HourKeysExact(surface: string, from: int, upto: int, k: SlotKey)
    ensures k in HourKeys(surface, from, upto) <==>
            k.surface == surface && 0 <= k.hour < 24 && from <= 24 * k.date + k.hour < upto
  {
    var keys := HourKeys(surface, from, upto);
    HourKeysAt(surface, from, upto);
    if k.surface == surface && 0 <= k.hour < 24 && from <= 24 * k.date + k.hour < upto {
      var h := 24 * k.date + k.hour;
      assert h / 24 == k.date && h % 24 == k.hour;
      assert KeyOfHour(surface, h) == k;
      assert keys[h - from] == KeyOfHour(surface, from + (h - from));
    }
    if k in keys {
      var i :| 0 <= i < |keys| && keys[i] == k;
      assert k == KeyOfHour(surface, from + i);
    }
  }

  /** The hour-expansion loop: truncate both ends to the hour, then step hour by hour. */
  method ExpandHours(surface: string, startsAt: int, endsAt: int) returns (keys: seq<SlotKey>)
    requires startsAt <= endsAt
    ensures keys == HourKeys(surface, HourOf(startsAt), HourOf(endsAt))
  {
    var current := startsAt - startsAt % MICROS_PER_HOUR;
    var endHour := endsAt - endsAt % MICROS_PER_HOUR;
    keys := [];
    while current < endHour
      invariant current % MICROS_PER_HOUR == 0
      invariant HourOf(startsAt) <= HourOf(current) <= HourOf(endsAt)
      invariant keys == HourKeys(surface, HourOf(startsAt), HourOf(current))
      decreases endHour - current
    {
      var h := HourOf(current);
      keys := keys + [KeyOfHour(surface, h)];
      current := current + MICROS_PER_HOUR;
      assert HourOf(current) == h + 1;
    }
  }
}
