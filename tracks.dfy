/** `MidiWriter.Track`: the events of one track, each an absolute tick and
    the bytes of one MIDI message, kept in insertion order until rendering
    sorts them by tick. */
module Tracks {
  import opened Bytes

  datatype TimedEvent = TimedEvent(tick: int, data: seq<Byte>)

  ghost predicate SortedByTick(s: seq<TimedEvent>)
  {
    forall i, j :: 0 <= i < j < |s| ==> s[i].tick <= s[j].tick
  }

  /** The events of `s` at tick `t`, in their order in `s`. */
  function AtTick(s: seq<TimedEvent>, t: int): seq<TimedEvent>
  {
    if s == [] then [] else (if s[0].tick == t then [s[0]] else []) + AtTick(s[1..], t)
  }

  /** `s` with `e` placed before the first event of a later tick. */
  function InsertByTick(e: TimedEvent, s: seq<TimedEvent>): seq<TimedEvent>
  {
    if s == [] || e.tick <= s[0].tick then [e] + s else [s[0]] + InsertByTick(e, s[1..])
  }

  /** What `events.sort(key=lambda ev: ev[0])` leaves in the list: Python's
      sort is stable, and so is this insertion sort. */
  function SortByTick(s: seq<TimedEvent>): seq<TimedEvent>
  {
    if s == [] then [] else InsertByTick(s[0], SortByTick(s[1..]))
  }

  lemma {:induction false} InsertByTickPermutes(e: TimedEvent, s: seq<TimedEvent>)
    ensures multiset(InsertByTick(e, s)) == multiset(s) + multiset{e}
  {
    if s != [] && e.tick > s[0].tick {
      InsertByTickPermutes(e, s[1..]);
      assert s == [s[0]] + s[1..];
    }
  }

  lemma {:induction false} InsertByTickSorted(e: TimedEvent, s: seq<TimedEvent>)
    requires SortedByTick(s)
    ensures SortedByTick(InsertByTick(e, s))
  {
    if s != [] && e.tick > s[0].tick {
      var rest := InsertByTick(e, s[1..]);
      InsertByTickSorted(e, s[1..]);
      InsertByTickPermutes(e, s[1..]);
      forall j | 0 <= j < |rest| ensures s[0].tick <= rest[j].tick {
        assert rest[j] in multiset(rest);
        assert rest[j] == e || rest[j] in s[1..];
      }
    }
  }

  /** Inserting `e` puts it before every event of its own tick. */
  lemma {:induction false} InsertByTickAtTick(e: TimedEvent, s: seq<TimedEvent>, t: int)
    ensures AtTick(InsertByTick(e, s), t) == (if e.tick == t then [e] else []) + AtTick(s, t)
  {
    if s != [] && e.tick > s[0].tick {
      var rest := InsertByTick(e, s[1..]);
      var r := [s[0]] + rest;
      assert InsertByTick(e, s) == r;
      InsertByTickAtTick(e, s[1..], t);
      var he := if e.tick == t then [e] else [];
      var hs := if s[0].tick == t then [s[0]] else [];
      assert r[0] == s[0] && r[1..] == rest;
      assert AtTick(r, t) == hs + AtTick(rest, t);
      assert AtTick(s, t) == hs + AtTick(s[1..], t);
      assert hs == [] || he == [];
    }
  }

  /** Sorting rearranges the events and neither drops nor adds one. */
  lemma {:induction false} SortByTickPermutes(s: seq<TimedEvent>)
    ensures multiset(SortByTick(s)) == multiset(s)
  {
    if s != [] {
      SortByTickPermutes(s[1..]);
      InsertByTickPermutes(s[0], SortByTick(s[1..]));
      assert s == [s[0]] + s[1..];
    }
  }

  /** After sorting, ticks never decrease. */
  lemma {:induction false} SortByTickSorted(s: seq<TimedEvent>)
    ensures SortedByTick(SortByTick(s))
  {
    if s != [] {
      SortByTickSorted(s[1..]);
      InsertByTickSorted(s[0], SortByTick(s[1..]));
    }
  }

  /** Sorting is stable: the events of each tick keep their insertion order. */
  lemma {:induction false} SortByTickStable(s: seq<TimedEvent>, t: int)
    ensures AtTick(SortByTick(s), t) == AtTick(s, t)
  {
    if s != [] {
      SortByTickStable(s[1..], t);
      InsertByTickAtTick(s[0], SortByTick(s[1..]), t);
    }
  }

  /** Sorting a sorted track changes nothing. */
  lemma {:induction false} SortByTickOfSorted(s: seq<TimedEvent>)
    requires SortedByTick(s)
    ensures SortByTick(s) == s
  {
    if s != [] {
      SortByTickOfSorted(s[1..]);
    }
  }

  /** Sorting twice gives what sorting once gives. */
  lemma SortByTickIdempotent(s: seq<TimedEvent>)
    ensures SortByTick(SortByTick(s)) == SortByTick(s)
  {
    SortByTickSorted(s);
    SortByTickOfSorted(SortByTick(s));
  }

  lemma {:induction false} AtTickAbsent(s: seq<TimedEvent>, t: int)
    requires forall i :: 0 <= i < |s| ==> s[i].tick != t
    ensures AtTick(s, t) == []
  {
    if s != [] {
      AtTickAbsent(s[1..], t);
    }
  }

  /** Two sorted sequences that agree on the events of every tick are equal. */
  lemma {:induction false} SortedByTickUnique(a: seq<TimedEvent>, b: seq<TimedEvent>)
    requires SortedByTick(a) && SortedByTick(b)
    requires forall t :: AtTick(a, t) == AtTick(b, t)
    ensures a == b
  {
    assert a != [] ==> AtTick(a, a[0].tick)[0] == a[0];
    assert b != [] ==> AtTick(b, b[0].tick)[0] == b[0];
    if a == [] || b == [] {
      if a != [] || b != [] {
        assert false;
      }
    } else {
      if a[0].tick < b[0].tick {
        AtTickAbsent(b, a[0].tick);
        assert false;
      } else if b[0].tick < a[0].tick {
        AtTickAbsent(a, b[0].tick);
        assert false;
      }
      assert AtTick(b, a[0].tick)[0] == b[0];
      forall t ensures AtTick(a[1..], t) == AtTick(b[1..], t) {
        var head := if a[0].tick == t then [a[0]] else [];
        assert AtTick(a, t) == head + AtTick(a[1..], t);
        assert AtTick(b, t) == head + AtTick(b[1..], t);
        assert AtTick(a[1..], t) == AtTick(a, t)[|head|..];
      }
      SortedByTickUnique(a[1..], b[1..]);
      assert a == [a[0]] + a[1..] && b == [b[0]] + b[1..];
    }
  }

  /** Any ordering of a track's events that is sorted by tick and keeps the
      insertion order within each tick is the one `SortByTick` gives, so the
      model agrees with every stable sort, Python's among them. */
  lemma StableSortIsSortByTick(s: seq<TimedEvent>, r: seq<TimedEvent>)
    requires SortedByTick(r)
    requires forall t :: AtTick(r, t) == AtTick(s, t)
    ensures r == SortByTick(s)
  {
    SortByTickSorted(s);
    forall t ensures AtTick(r, t) == AtTick(SortByTick(s), t) {
      SortByTickStable(s, t);
    }
    SortedByTickUnique(r, SortByTick(s));
  }

  class Track {
    var events: seq<TimedEvent>

    constructor()
      ensures events == []
    {
      events := [];
    }

    /** `add_event`: appends at the end; the earlier events are untouched. */
    method AddEvent(tick: int, data: seq<Byte>)
      modifies this
      ensures events == old(events) + [TimedEvent(tick, data)]
    {
      events := events + [TimedEvent(tick, data)];
    }

    /** `sort_events`: sorts the list in place by tick, stably. */
    method SortEvents()
      modifies this
      ensures events == SortByTick(old(events))
    {
      events := SortByTick(events);
    }
  }
}
