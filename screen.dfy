/**
 * The state machine of the `App()` screen: three state cells (dropdown visible,
 * selected country, label text) and the four events that change them (the
 * "Select Location" button, a dropdown item click, a dropdown dismiss, and one
 * iteration of the refresh loop). `Ui`, `Event` and `Apply` are the
 * specification; `Controller` holds the cells as fields and has one method per
 * event handler.
 */
module Screen {
  import opened Wrappers
  import opened TimeFormat
  import opened Registry

  /** The label shown before any country is selected. */
  const Placeholder: string := "No location selected"

  datatype Ui = Ui(showCountries: bool, selectedCountry: Option<Country>, timeAtLocation: string)

  /** A `Tick` carries the wall-clock time in the selected country's zone at the moment of the tick. */
  datatype Event = ButtonClick | ItemClick(country: Country) | DismissRequest | Tick(time: LocalTime)

  /** Events the screen can receive: items come from the registry and clocks are in range. */
  predicate Admissible(e: Event)
  {
    match e
    case ItemClick(c) => c in Countries()
    case Tick(t) => InRange(t)
    case _ => true
  }

  /** The text is the time sentence for some registry country at some wall-clock time. */
  ghost predicate IsRegistryTimeText(text: string)
  {
    exists c, t :: c in Countries() && InRange(t) && text == CurrentTimeAt(c.name, t)
  }

  /**
   * The invariant of the screen: a selection is a registry country, with no
   * selection the label is the placeholder, and otherwise the label is the
   * placeholder (until the first tick) or a well-formed time sentence about
   * some registry country.
   */
  ghost predicate Consistent(u: Ui)
  {
    (match u.selectedCountry
     case None => u.timeAtLocation == Placeholder
     case Some(c) => c in Countries()) &&
    (u.timeAtLocation == Placeholder || IsRegistryTimeText(u.timeAtLocation))
  }

  /** The state the three cells are created with. */
  function Initial(): (u: Ui)
    ensures Consistent(u)
    ensures ReadTimeText(u.timeAtLocation) == None
  {
    Ui(false, None, Placeholder)
  }

  /** The effect of one event on the three cells. */
  function Apply(u: Ui, e: Event): Ui
  {
    match e
    case ButtonClick => u.(showCountries := !u.showCountries)
    case ItemClick(c) => u.(selectedCountry := Some(c), showCountries := false)
    case DismissRequest => u.(showCountries := false)
    case Tick(t) =>
      match u.selectedCountry
      case None => u
      case Some(c) => u.(timeAtLocation := CurrentTimeAt(c.name, t))
  }

  /** The effect of a sequence of events, first to last. */
  function Run(u: Ui, es: seq<Event>): Ui
    decreases |es|
  {
    if es == [] then u else Run(Apply(u, es[0]), es[1..])
  }

  /** One tick for each of the given clock readings. */
  function TicksOf(times: seq<LocalTime>): (es: seq<Event>)
    ensures |es| == |times|
    ensures forall i :: 0 <= i < |times| ==> es[i] == Tick(times[i])
  {
    seq(|times|, i requires 0 <= i < |times| => Tick(times[i]))
  }

  /** One more reading adds one more tick at the end. */
  lemma TicksOfSnoc(times: seq<LocalTime>, i: nat)
    requires i < |times|
    ensures TicksOf(times[..i + 1]) == TicksOf(times[..i]) + [Tick(times[i])]
  {
    var a, b := TicksOf(times[..i + 1]), TicksOf(times[..i]) + [Tick(times[i])];
    assert |a| == |b|;
    forall k | 0 <= k < |a| ensures a[k] == b[k] {
    }
  }

  /** Every admissible event keeps the screen consistent. */
  lemma ApplyConsistent(u: Ui, e: Event)
    requires Consistent(u) && Admissible(e)
    ensures Consistent(Apply(u, e))
  {
    match e
    case Tick(t) =>
      match u.selectedCountry {
        case None =>
        case Some(c) =>
          assert IsRegistryTimeText(CurrentTimeAt(c.name, t));
      }
    case _ =>
  }

  /**
   * What the user sees on a consistent screen: the placeholder, or a sentence
   * that reads back as the name of a registry country and an in-range time.
   */
  lemma ConsistentLabelReadable(u: Ui)
    requires Consistent(u)
    ensures u.timeAtLocation == Placeholder ||
      match ReadTimeText(u.timeAtLocation)
      case Some(r) => InRange(r.time) && exists c :: c in Countries() && c.name == r.location
      case None => false
  {
    if u.timeAtLocation != Placeholder {
      var c, t :| c in Countries() && InRange(t) && u.timeAtLocation == CurrentTimeAt(c.name, t);
      CurrentTimeAtRoundTrip(c.name, t);
    }
  }

  /** Any sequence of admissible events keeps the screen consistent. */
  lemma {:induction false} RunConsistent(u: Ui, es: seq<Event>)
    requires Consistent(u)
    requires forall i :: 0 <= i < |es| ==> Admissible(es[i])
    ensures Consistent(Run(u, es))
    decreases |es|
  {
    if es != [] {
      ApplyConsistent(u, es[0]);
      RunConsistent(Apply(u, es[0]), es[1..]);
    }
  }

  /** Running two event sequences one after the other is running their concatenation. */
  lemma {:induction false} RunAppend(u: Ui, a: seq<Event>, b: seq<Event>)
    ensures Run(u, a + b) == Run(Run(u, a), b)
    decreases |a|
  {
    if a != [] {
      assert (a + b)[0] == a[0] && (a + b)[1..] == a[1..] + b;
      RunAppend(Apply(u, a[0]), a[1..], b);
    } else {
      assert a + b == b;
    }
  }

  /** With country c selected, a tick rewrites only the label, with c's sentence for the tick's time. */
  lemma TickWrites(u: Ui, c: Country, t: LocalTime)
    requires u.selectedCountry == Some(c)
    ensures Apply(u, Tick(t)) == u.(timeAtLocation := CurrentTimeAt(c.name, t))
  {
  }

  /** A tick writes a sentence that reads back as the selected country and the tick's time, and changes nothing else. */
  lemma TickShowsSelection(u: Ui, c: Country, t: LocalTime)
    requires u.selectedCountry == Some(c) && InRange(t)
    ensures ReadTimeText(Apply(u, Tick(t)).timeAtLocation) == Some(Reading(c.name, t))
    ensures Apply(u, Tick(t)).selectedCountry == Some(c)
    ensures Apply(u, Tick(t)).showCountries == u.showCountries
  {
    TickWrites(u, c, t);
    CurrentTimeAtRoundTrip(c.name, t);
  }

  /** Without a selection a tick changes nothing. */
  lemma TickWithoutSelection(u: Ui, t: LocalTime)
    requires u.selectedCountry == None
    ensures Apply(u, Tick(t)) == u
  {
  }

  /** Only ticks write the label: it stays stale across clicks and dismissals. */
  lemma {:induction false} LabelOnlyChangesOnTick(u: Ui, es: seq<Event>)
    requires forall i :: 0 <= i < |es| ==> !es[i].Tick?
    ensures Run(u, es).timeAtLocation == u.timeAtLocation
    decreases |es|
  {
    if es != [] {
      LabelOnlyChangesOnTick(Apply(u, es[0]), es[1..]);
    }
  }

  /** Only item clicks change the selection. */
  lemma {:induction false} SelectionKeptWithoutClick(u: Ui, es: seq<Event>)
    requires forall i :: 0 <= i < |es| ==> !es[i].ItemClick?
    ensures Run(u, es).selectedCountry == u.selectedCountry
    decreases |es|
  {
    if es != [] {
      SelectionKeptWithoutClick(Apply(u, es[0]), es[1..]);
    }
  }

  /** Once a country is selected, no event returns the screen to "nothing selected". */
  lemma {:induction false} SelectionNeverCleared(u: Ui, es: seq<Event>)
    requires u.selectedCountry.Some?
    ensures Run(u, es).selectedCountry.Some?
    decreases |es|
  {
    if es != [] {
      SelectionNeverCleared(Apply(u, es[0]), es[1..]);
    }
  }

  /**
   * After switching to `c`, the first tick shows `c`'s time, whatever else
   * (other than another item click) happens in between.
   */
  lemma SwitchShowsNewCountry(u: Ui, c: Country, between: seq<Event>, t: LocalTime)
    requires forall i :: 0 <= i < |between| ==> !between[i].ItemClick?
    requires InRange(t)
    ensures ReadTimeText(Run(u, [ItemClick(c)] + between + [Tick(t)]).timeAtLocation) == Some(Reading(c.name, t))
  {
    var picked := Apply(u, ItemClick(c));
    assert Run(u, [ItemClick(c)]) == picked;
    RunAppend(u, [ItemClick(c)], between);
    RunAppend(u, [ItemClick(c)] + between, [Tick(t)]);
    SelectionKeptWithoutClick(picked, between);
    var before := Run(picked, between);
    assert Run(before, [Tick(t)]) == Apply(before, Tick(t));
    TickShowsSelection(before, c, t);
  }

  /** Picking the country that is already selected again changes nothing further. */
  lemma ReselectIdempotent(u: Ui, c: Country)
    ensures Apply(Apply(u, ItemClick(c)), ItemClick(c)) == Apply(u, ItemClick(c))
  {
  }

  /** Pressing the button twice restores the state. */
  lemma ButtonTwiceRestores(u: Ui)
    ensures Apply(Apply(u, ButtonClick), ButtonClick) == u
  {
  }

  /** A run of ticks with a selection leaves the sentence for the last reading and nothing else changed. */
  lemma {:induction false} TicksShowLast(u: Ui, c: Country, times: seq<LocalTime>)
    requires u.selectedCountry == Some(c)
    ensures Run(u, TicksOf(times)) ==
      if times == [] then u else u.(timeAtLocation := CurrentTimeAt(c.name, times[|times| - 1]))
    decreases |times|
  {
    if times != [] {
      var es := TicksOf(times);
      var v := Apply(u, Tick(times[0]));
      TickWrites(u, c, times[0]);
      assert es[1..] == TicksOf(times[1..]);
      assert Run(u, es) == Run(v, TicksOf(times[1..]));
      TicksShowLast(v, c, times[1..]);
    }
  }

  /** With nothing selected the refresh loop never runs, so ticks change nothing. */
  lemma {:induction false} TicksWithoutSelection(u: Ui, times: seq<LocalTime>)
    requires u.selectedCountry == None
    ensures Run(u, TicksOf(times)) == u
    decreases |times|
  {
    if times != [] {
      assert TicksOf(times)[1..] == TicksOf(times[1..]);
      TicksWithoutSelection(u, times[1..]);
    }
  }

  /** The screen's three state cells and its event handlers. */
  class Controller {
    var showCountries: bool
    var selectedCountry: Option<Country>
    var timeAtLocation: string

    function State(): Ui
      reads this
    {
      Ui(showCountries, selectedCountry, timeAtLocation)
    }

    ghost predicate Valid()
      reads this
    {
      Consistent(State())
    }

    /** `remember { mutableStateOf(...) }` for the three cells. */
    constructor ()
      ensures Valid() && State() == Initial()
      ensures !showCountries && selectedCountry == None && timeAtLocation == Placeholder
    {
      showCountries := false;
      timeAtLocation := Placeholder;
      selectedCountry := None;
    }

    /** The "Select Location" button: toggles the dropdown. */
    method OnButtonClick()
      requires Valid()
      modifies this
      ensures Valid() && State() == Apply(old(State()), ButtonClick)
      ensures showCountries == !old(showCountries)
      ensures selectedCountry == old(selectedCountry) && timeAtLocation == old(timeAtLocation)
    {
      showCountries := !showCountries;
    }

    /** A dropdown item: selects its country and closes the dropdown; the label waits for the next tick. */
    method OnItemClick(country: Country)
      requires Valid() && country in Countries()
      modifies this
      ensures Valid() && State() == Apply(old(State()), ItemClick(country))
      ensures selectedCountry == Some(country) && !showCountries
      ensures timeAtLocation == old(timeAtLocation)
    {
      selectedCountry := Some(country);
      showCountries := false;
    }

    /** Dismissing the dropdown closes it. */
    method OnDismissRequest()
      requires Valid()
      modifies this
      ensures Valid() && State() == Apply(old(State()), DismissRequest)
      ensures !showCountries
      ensures selectedCountry == old(selectedCountry) && timeAtLocation == old(timeAtLocation)
    {
      showCountries := false;
    }

    /** One iteration of the refresh loop, with the selected zone's local time given as `time`. */
    method OnTick(time: LocalTime)
      requires Valid() && InRange(time)
      modifies this
      ensures Valid() && State() == Apply(old(State()), Tick(time))
      ensures selectedCountry == old(selectedCountry) && showCountries == old(showCountries)
      ensures match selectedCountry
        case None => timeAtLocation == old(timeAtLocation)
        case Some(c) => ReadTimeText(timeAtLocation) == Some(Reading(c.name, time))
    {
      ghost var before := State();
      if selectedCountry.Some? {
        var country := selectedCountry.value;
        timeAtLocation := CurrentTimeAt(country.name, time);
        TickWrites(before, country, time);
        TickShowsSelection(before, country, time);
      } else {
        TickWithoutSelection(before, time);
      }
      assert State() == Apply(before, Tick(time));
      ApplyConsistent(before, Tick(time));
    }

    /**
     * The first `|times|` iterations of the refresh loop started for the
     * current selection, `times[i]` being the local time read on iteration `i`;
     * with no selection the loop does not start.
     */
    method RefreshLoop(times: seq<LocalTime>)
      requires Valid()
      requires forall i :: 0 <= i < |times| ==> InRange(times[i])
      modifies this
      ensures Valid() && State() == Run(old(State()), TicksOf(times))
      ensures selectedCountry == old(selectedCountry) && showCountries == old(showCountries)
    {
      ghost var start := State();
      if selectedCountry.Some? {
        var i := 0;
        while i < |times|
          invariant 0 <= i <= |times|
          invariant Valid() && State() == Run(start, TicksOf(times[..i]))
          invariant selectedCountry == start.selectedCountry && showCountries == start.showCountries
        {
          OnTick(times[i]);
          TicksOfSnoc(times, i);
          RunAppend(start, TicksOf(times[..i]), [Tick(times[i])]);
          i := i + 1;
        }
        assert times[..|times|] == times;
      } else {
        TicksWithoutSelection(start, times);
      }
    }
  }
}
