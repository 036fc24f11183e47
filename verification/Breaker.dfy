/** The forecast client's circuit breaker, internal/forecaster/client.go: a sliding window of
    error times, compacted in place over its own backing array. */
module Breaker {
  import opened Basics

  const MAX_ERRORS := 5
  const WINDOW := 60 * SECOND
  const PAUSE := 30 * SECOND

  // ----- the full history -----

  datatype Event =
    | Error(at: int)
    | Trip(at: int)  // an error that opened the breaker
    | Success

  /** All errors since the last success or trip. */
  function ErrorsSince(h: seq<Event>): seq<int> {
    if h == [] then []
    else match h[|h| - 1]
      case Error(at) => ErrorsSince(h[..|h| - 1]) + [at]
      case Trip(_) => []
      case Success => []
  }

  /** Time of the last trip, if no success came after it. */
  function LastTrip(h: seq<Event>): Option<int> {
    if h == [] then None
    else match h[|h| - 1]
      case Error(_) => LastTrip(h[..|h| - 1])
      case Trip(at) => Some(at)
      case Success => None
  }

  function Recent(errors: seq<int>, cutoff: int): (r: seq<int>)
    ensures |r| <= |errors|
  {
    if errors == [] then []
    else
      var n := |errors| - 1;
      if errors[n] > cutoff then Recent(errors[..n], cutoff) + [errors[n]] else Recent(errors[..n], cutoff)
  }

  /** Errors since the last reset that are less than a minute old at `now`, `now` included. */
  function Window(h: seq<Event>, now: int): seq<int> {
    Recent(ErrorsSince(h) + [now], now - WINDOW)
  }

  ghost predicate Ordered(s: seq<int>) {
    forall i, j :: 0 <= i < j < |s| ==> s[i] <= s[j]
  }

  lemma {:induction false} RecentMembers(errors: seq<int>, cutoff: int)
    ensures forall t :: t in Recent(errors, cutoff) <==> t in errors && t > cutoff
    ensures Ordered(errors) ==> Ordered(Recent(errors, cutoff))
  {
    if errors == [] {
    } else {
      var n := |errors| - 1;
      RecentMembers(errors[..n], cutoff);
      assert errors == errors[..n] + [errors[n]];
      var before := Recent(errors[..n], cutoff);
      assert forall i :: 0 <= i < |before| ==> before[i] in before;
    }
  }

  lemma {:induction false} RecentTwice(errors: seq<int>, early: int, late: int)
    requires early <= late
    ensures Recent(Recent(errors, early), late) == Recent(errors, late)
  {
    if errors == [] {
    } else {
      var n := |errors| - 1;
      RecentTwice(errors[..n], early, late);
      var before := Recent(errors[..n], early);
      assert (before + [errors[n]])[..|before|] == before;
    }
  }

  lemma RecentAppend(errors: seq<int>, t: int, cutoff: int)
    requires t > cutoff
    ensures Recent(errors + [t], cutoff) == Recent(errors, cutoff) + [t]
  {
  }

  /** The slice holds what the full history still counts as of the latest error. */
  ghost predicate TracksErrors(errors: seq<int>, h: seq<Event>, lastError: int) {
    && |errors| < MAX_ERRORS && errors == Recent(ErrorsSince(h), lastError - WINDOW)
    && Ordered(ErrorsSince(h)) && (forall t :: t in ErrorsSince(h) ==> t <= lastError)
  }

  /** `openUntil` stands for the last trip until a check sees its pause over. */
  ghost predicate TracksTrip(openUntil: Option<int>, h: seq<Event>, clock: int) {
    && (openUntil.Some? ==> LastTrip(h) == Some(openUntil.value - PAUSE))
    && (openUntil.None? && LastTrip(h).Some? ==> clock >= LastTrip(h).value + PAUSE)
  }

  lemma ErrorTracked(errors: seq<int>, openUntil: Option<int>, h: seq<Event>, lastError: int, clock: int, now: int)
    requires TracksErrors(errors, h, lastError) && TracksTrip(openUntil, h, clock) && lastError <= clock <= now
    ensures TracksErrors([], h + [Trip(now)], now) && TracksTrip(Some(now + PAUSE), h + [Trip(now)], now)
    ensures |Window(h, now)| < MAX_ERRORS ==> TracksErrors(Window(h, now), h + [Error(now)], now)
    ensures TracksTrip(openUntil, h + [Error(now)], now)
    ensures Ordered(Window(h, now))
  {
    HistoryStep(h, lastError, now);
    WindowOrdered(h, now);
  }

  // ----- the breaker -----

  class CircuitBreaker {
    var buffer: array<int>  // backing array of the error slice
    var count: nat  // length of the slice
    var openUntil: Option<int>  // None: the zero time
    ghost var history: seq<Event>
    ghost var lastError: int  // clock at the latest recorded error
    ghost var clock: int  // latest clock reading

    constructor (ghost start: int)
      ensures Valid() && history == [] && clock == start && fresh(buffer)
    {
      buffer := new int[0];
      count, openUntil, history, lastError, clock := 0, None, [], start, start;
    }

    ghost function Errors(): seq<int>
      requires count <= buffer.Length
      reads this, buffer
    {
      buffer[..count]
    }

    ghost predicate Valid()
      reads this, buffer
    {
      && count <= buffer.Length && lastError <= clock
      && TracksErrors(Errors(), history, lastError) && TracksTrip(openUntil, history, clock)
    }

    /** Open exactly within thirty seconds of a trip not followed by a success. */
    method IsOpen(now: int) returns (open: bool)
      requires Valid() && now >= clock
      modifies this`openUntil, this`clock
      ensures Valid() && clock == now
      ensures open <==> LastTrip(history).Some? && now - LastTrip(history).value < 30_000_000_000
    {
      clock := now;
      if openUntil.Some? && now < openUntil.value {
        return true;
      }
      openUntil := None;
      return false;
    }

    /** The fifth error within a minute trips the breaker and empties the slice; otherwise the
        slice is exactly the window of the full history, ordered and shorter than five. */
    method RecordError(now: int)
      requires Valid() && now >= clock
      modifies this, buffer
      ensures Valid() && clock == now && (buffer == old(buffer) || fresh(buffer))
      ensures |Window(old(history), now)| >= 5 ==>
        history == old(history) + [Trip(now)] && Errors() == [] && openUntil == Some(now + PAUSE)
      ensures |Window(old(history), now)| < 5 ==>
        history == old(history) + [Error(now)] && Errors() == Window(old(history), now) && openUntil == old(openUntil)
      ensures Ordered(Errors()) && |Errors()| < 5
    {
      ErrorTracked(Errors(), openUntil, history, lastError, clock, now);
      Slide(now);
      clock, lastError := now, now;
      if count >= MAX_ERRORS {
        openUntil := Some(now + PAUSE);
        count := 0;
        history := history + [Trip(now)];
      } else {
        history := history + [Error(now)];
      }
    }

    /** Evicts old errors in place and appends the new one. */
    method Slide(now: int)
      requires count <= buffer.Length && lastError <= now
      requires Errors() == Recent(ErrorsSince(history), lastError - WINDOW)
      modifies this`buffer, this`count, buffer
      ensures buffer == old(buffer) || fresh(buffer)
      ensures count <= buffer.Length && Errors() == Window(history, now)
    {
      ghost var slice := Errors();
      var kept := Compact(buffer, count, now - WINDOW);
      buffer := Append(buffer, kept, now);
      count := kept + 1;
      WindowFromSlice(history, lastError, now, slice);
    }

    /** Drops the errors at or before the cutoff, writing over the front of the array. */
    static method Compact(a: array<int>, n: nat, cutoff: int) returns (kept: nat)
      requires n <= a.Length
      modifies a
      ensures kept <= n && a[..kept] == Recent(old(a[..n]), cutoff)
    {
      ghost var was := a[..n];
      kept := 0;
      for i := 0 to n
        invariant kept <= i
        invariant a[..kept] == Recent(was[..i], cutoff)
        invariant forall k :: i <= k < n ==> a[k] == was[k]
      {
        assert was[..i + 1][..i] == was[..i];
        var t := a[i];
        if t > cutoff {
          ghost var front := a[..kept];
          a[kept] := t;
          kept := kept + 1;
          assert a[..kept] == front + [t];
        }
      }
      assert was[..n] == was;
    }

    /** Go's append: in place while there is room, else into a larger array. */
    static method Append(a: array<int>, n: nat, t: int) returns (b: array<int>)
      requires n <= a.Length
      modifies a
      ensures (b == a || fresh(b)) && n + 1 <= b.Length
      ensures b[..n + 1] == old(a[..n]) + [t]
    {
      if n < a.Length {
        a[n] := t;
        return a;
      }
      b := new int[2 * n + 1];
      for i := 0 to n
        invariant b[..i] == a[..i] && a[..] == old(a[..])
      {
        b[i] := a[i];
      }
      b[n] := t;
    }

    method RecordSuccess(now: int)
      requires Valid() && now >= clock
      modifies this
      ensures Valid() && clock == now && buffer == old(buffer)
      ensures history == old(history) + [Success] && Errors() == [] && openUntil == None
    {
      count, openUntil, clock := 0, None, now;
      assert (history + [Success])[..|history|] == history;
      history := history + [Success];
    }
  }

  /** Evicting old errors from the already evicted slice gives the window of the history. */
  lemma WindowFromSlice(h: seq<Event>, lastError: int, now: int, slice: seq<int>)
    requires lastError <= now && slice == Recent(ErrorsSince(h), lastError - WINDOW)
    ensures Recent(slice, now - WINDOW) + [now] == Window(h, now)
  {
    RecentTwice(ErrorsSince(h), lastError - WINDOW, now - WINDOW);
    RecentAppend(ErrorsSince(h), now, now - WINDOW);
  }

  /** What an error at `now` does to the history-side facts, whether or not it trips. */
  lemma HistoryStep(h: seq<Event>, lastError: int, now: int)
    requires lastError <= now && Ordered(ErrorsSince(h)) && forall t :: t in ErrorsSince(h) ==> t <= lastError
    ensures ErrorsSince(h + [Trip(now)]) == [] && LastTrip(h + [Trip(now)]) == Some(now)
    ensures ErrorsSince(h + [Error(now)]) == ErrorsSince(h) + [now] && LastTrip(h + [Error(now)]) == LastTrip(h)
    ensures Ordered(ErrorsSince(h) + [now]) && forall t :: t in ErrorsSince(h) + [now] ==> t <= now
  {
    assert (h + [Trip(now)])[..|h|] == h && (h + [Error(now)])[..|h|] == h;
    OrderedAppend(ErrorsSince(h), lastError, now);
  }

  lemma OrderedAppend(errors: seq<int>, last: int, now: int)
    requires Ordered(errors) && last <= now && forall t :: t in errors ==> t <= last
    ensures Ordered(errors + [now]) && forall t :: t in errors + [now] ==> t <= now
  {
    assert forall i :: 0 <= i < |errors| ==> errors[i] in errors;
  }

  lemma WindowOrdered(h: seq<Event>, now: int)
    requires Ordered(ErrorsSince(h) + [now])
    ensures Ordered(Window(h, now))
  {
    RecentMembers(ErrorsSince(h) + [now], now - WINDOW);
  }

  /** The window read directly: it holds exactly the errors since the last success or trip
      that are under a minute old. */
  lemma WindowExactly(h: seq<Event>, now: int)
    ensures forall t :: t in Window(h, now) <==> (t == now || t in ErrorsSince(h)) && now - t < 60_000_000_000
  {
    RecentMembers(ErrorsSince(h) + [now], now - WINDOW);
  }
}
