/** The event-row layouts of the calendar widget: which strings go into
    which views of one event row, and which of those views are shown. */
module EventEntryLayout {
  import opened Wrappers
  import opened Strings
  import opened RemoteViews

  /** The two layout variants, in declaration order. */
  datatype Layout = Default | OneLine {

    /** The value stored in the preferences for this layout. */
    function Value(): string {
      match this
      case Default => "DEFAULT"
      case OneLine => "ONE_LINE"
    }
  }

  /** `EventEntryLayout.values()`. */
  const AllLayouts: seq<Layout> := [Default, OneLine]

  /** `SPACE_PIPE_SPACE`. */
  const SpacePipeSpace: string := "  |  "

  /** The date format types the layouts tell apart; every other type of
      `DateFormatType` behaves alike here. */
  datatype DateFormatType = Hidden | NumberOfDays | OtherFormat

  /** What a layout reads from a calendar entry. `title` and `location` may be
      null. `formattedDate`, `eventTime` and `details` are the results of
      `formatEntryDate()`, `getEventTimeString()` and the details line the
      default layout composes from them and the location. */
  datatype CalendarEntry = CalendarEntry(
    title: Option<string>,
    location: Option<string>,
    formattedDate: string,
    eventTime: string,
    details: string,
    dateFormat: DateFormatType,
    daysToEvent: int)

  /** `appendWithSeparator(input, separator, toAppend)`. */
  function AppendWithSeparator(input: Option<string>, separator: string, toAppend: Option<string>): (r: Option<string>)
    ensures IsEmpty(input) ==> r == toAppend
    ensures !IsEmpty(input) && IsEmpty(toAppend) ==> r == input
    ensures !IsEmpty(input) && !IsEmpty(toAppend) ==>
      && r.Some?
      && |r.value| == |input.value| + |separator| + |toAppend.value|
      && r.value[..|input.value|] == input.value
      && r.value[|input.value|..|input.value| + |separator|] == separator
      && r.value[|input.value| + |separator|..] == toAppend.value
  {
    if IsEmpty(input) then toAppend
    else if toAppend.None? || |toAppend.value| == 0 then input
    else Some(input.value + separator + toAppend.value)
  }

  /** The joined string is empty exactly when both operands are. */
  lemma AppendWithSeparatorEmpty(input: Option<string>, separator: string, toAppend: Option<string>)
    ensures IsEmpty(AppendWithSeparator(input, separator, toAppend)) <==> IsEmpty(input) && IsEmpty(toAppend)
    ensures AppendWithSeparator(input, separator, toAppend).None? <==> IsEmpty(input) && toAppend.None?
  {
    var r := AppendWithSeparator(input, separator, toAppend);
    if !IsEmpty(input) && !IsEmpty(toAppend) {
      assert |r.value| >= |input.value| > 0;
    }
  }

  /** The loop of `fromValue`: the first of `items` whose value equals `value`. */
  function FindByValue(items: seq<Layout>, value: Option<string>): (r: Option<Layout>)
    ensures r.Some? ==> r.value in items && value == Some(r.value.Value())
    ensures r.None? <==> forall i :: 0 <= i < |items| ==> value != Some(items[i].Value())
    decreases |items|
  {
    if |items| == 0 then None
    else if value == Some(items[0].Value()) then Some(items[0])
    else FindByValue(items[1..], value)
  }

  /** `fromValue(value)`: the layout stored as `value`, and `Default` for
      `null` and for any other string. */
  function FromValue(value: Option<string>): (r: Layout)
    ensures forall l: Layout :: value == Some(l.Value()) ==> r == l
    ensures (forall l: Layout :: value != Some(l.Value())) ==> r == Default
  {
    match FindByValue(AllLayouts, value)
    case Some(l) => l
    case None => Default
  }

  /** `getTitleString`: the bare title by default; the one-line layout
      appends the location after `SPACE_PIPE_SPACE`. */
  function TitleString(layout: Layout, entry: CalendarEntry): (r: Option<string>)
    ensures layout == Default ==> r == entry.title
    ensures layout == OneLine && IsEmpty(entry.title) ==> r == entry.location
    ensures layout == OneLine && !IsEmpty(entry.title) && IsEmpty(entry.location) ==> r == entry.title
    ensures layout == OneLine && !IsEmpty(entry.title) && !IsEmpty(entry.location) ==>
      r == Some(entry.title.value + "  |  " + entry.location.value)
  {
    match layout
    case Default => entry.title
    case OneLine => AppendWithSeparator(entry.title, SpacePipeSpace, entry.location)
  }

  /** The one-line layout shows the date as text (in the left view) unless
      the format counts days and the event is more than a day away. */
  predicate DaysAsText(entry: CalendarEntry) {
    entry.dateFormat != NumberOfDays || (entry.daysToEvent > -2 && entry.daysToEvent < 2)
  }

  /** The calls `setTitle` records. */
  function TitleActions(layout: Layout, entry: CalendarEntry): seq<Action> {
    [SetText(Title, TitleString(layout, entry))]
  }

  /** The calls `setDate` records. */
  function DateActions(layout: Layout, entry: CalendarEntry): seq<Action> {
    match layout
    case Default => []
    case OneLine =>
      if entry.dateFormat == Hidden then
        [SetVisibility(Days, Gone), SetVisibility(DaysRight, Gone)]
      else
        var shownView := if DaysAsText(entry) then Days else DaysRight;
        var hiddenView := if DaysAsText(entry) then DaysRight else Days;
        var shownWidth := if DaysAsText(entry) then DaysToEventWidth else DaysToEventRightWidth;
        [ SetVisibility(hiddenView, Gone),
          SetVisibility(shownView, Visible),
          SetText(shownView, Some(entry.formattedDate)),
          SetWidth(shownView, shownWidth) ]
  }

  /** The calls `setTime` records; `spaceDashSpace` is
      `CalendarEntry.SPACE_DASH_SPACE`. */
  function TimeActions(layout: Layout, entry: CalendarEntry, spaceDashSpace: string): seq<Action> {
    match layout
    case Default => []
    case OneLine =>
      [ SetText(Time, Some(Replace(entry.eventTime, spaceDashSpace, "\n"))),
        SetWidth(Time, EventTimeWidth) ]
  }

  /** The calls `setDetails` records. */
  function DetailsActions(layout: Layout, entry: CalendarEntry): seq<Action> {
    match layout
    case Default =>
      if |entry.details| == 0 then [SetVisibility(Details, Gone)]
      else [SetVisibility(Details, Visible), SetText(Details, Some(entry.details))]
    case OneLine => []
  }

  /** `setTitle`: the title view shows the layout's title string. */
  function SetTitle(layout: Layout, entry: CalendarEntry, rv: ViewState): (rv': ViewState)
    ensures Get(rv'.text, Title) == Some(TitleString(layout, entry))
    ensures rv'.visibility == rv.visibility && rv'.width == rv.width
    ensures forall v :: v != Title ==> Agree(rv, rv', v)
  {
    var actions := TitleActions(layout, entry);
    ApplyShort(rv, actions);
    Apply(rv, actions)
  }

  /** `setDate`: nothing by default. The one-line layout hides both day views
      for a hidden date format; otherwise it shows exactly one of them, the
      left one with its width when the date is shown as text and the right one
      with its width when it is a number of days beyond -1..1, and only the
      shown one gets the date text. */
  function SetDate(layout: Layout, entry: CalendarEntry, rv: ViewState): (rv': ViewState)
    ensures layout == Default ==> rv' == rv
    ensures layout == OneLine && entry.dateFormat == Hidden ==>
      && rv'.visibility == rv.visibility[Days := Gone][DaysRight := Gone]
      && rv'.text == rv.text
      && rv'.width == rv.width
    ensures layout == OneLine && entry.dateFormat != Hidden ==>
      var left := entry.dateFormat != NumberOfDays || -1 <= entry.daysToEvent <= 1;
      var shown := if left then Days else DaysRight;
      var hidden := if left then DaysRight else Days;
      && Get(rv'.visibility, shown) == Some(Visible)
      && Get(rv'.visibility, hidden) == Some(Gone)
      && Get(rv'.text, shown) == Some(Some(entry.formattedDate))
      && Get(rv'.text, hidden) == Get(rv.text, hidden)
      && Get(rv'.width, shown) == Some(if left then DaysToEventWidth else DaysToEventRightWidth)
      && Get(rv'.width, hidden) == Get(rv.width, hidden)
    ensures forall v :: v != Days && v != DaysRight ==> Agree(rv, rv', v)
  {
    var actions := DateActions(layout, entry);
    ApplyShort(rv, actions);
    Apply(rv, actions)
  }

  /** `setTime`: nothing by default. The one-line layout shows the event time
      with every `SPACE_DASH_SPACE` turned into a line break, at the time
      width, and leaves visibility alone. */
  function SetTime(layout: Layout, entry: CalendarEntry, spaceDashSpace: string, rv: ViewState): (rv': ViewState)
    ensures layout == Default ==> rv' == rv
    ensures layout == OneLine ==>
      && Get(rv'.text, Time) == Some(Some(Replace(entry.eventTime, spaceDashSpace, "\n")))
      && Get(rv'.width, Time) == Some(EventTimeWidth)
      && rv'.visibility == rv.visibility
    ensures forall v :: v != Time ==> Agree(rv, rv', v)
  {
    var actions := TimeActions(layout, entry, spaceDashSpace);
    ApplyShort(rv, actions);
    Apply(rv, actions)
  }

  /** `setDetails`: the one-line layout does nothing. The default layout hides
      the details view exactly when the details line is empty, and otherwise
      shows it with that line as its text. */
  function SetDetails(layout: Layout, entry: CalendarEntry, rv: ViewState): (rv': ViewState)
    ensures layout == OneLine ==> rv' == rv
    ensures layout == Default ==>
      && (Get(rv'.visibility, Details) == Some(Gone) <==> |entry.details| == 0)
      && (Get(rv'.visibility, Details) == Some(Visible) <==> |entry.details| > 0)
      && (|entry.details| > 0 ==> Get(rv'.text, Details) == Some(Some(entry.details)))
      && (|entry.details| == 0 ==> Get(rv'.text, Details) == Get(rv.text, Details))
      && rv'.width == rv.width
    ensures forall v :: v != Details ==> Agree(rv, rv', v)
  {
    var actions := DetailsActions(layout, entry);
    ApplyShort(rv, actions);
    Apply(rv, actions)
  }

  /** The hook that owns a view; `visualizeEvent` runs the hooks in this order. */
  function HookRank(v: ViewId): nat {
    match v
    case Title => 0
    case Days => 1
    case DaysRight => 1
    case Time => 2
    case Details => 3
  }

  /** The views a layout writes to. */
  function ViewsOf(layout: Layout): set<ViewId> {
    match layout
    case Default => {Title, Details}
    case OneLine => {Title, Days, DaysRight, Time}
  }

  /** `visualizeEvent`: the calls recorded on the row's `RemoteViews`. The
      title comes first, and the calls come grouped by hook in the order
      title, date, time, details; each layout writes only its own views. */
  function VisualizeEvent(layout: Layout, entry: CalendarEntry, spaceDashSpace: string): (log: seq<Action>)
    ensures |log| > 0 && log[0] == SetText(Title, TitleString(layout, entry))
    ensures forall i, j :: 0 <= i < j < |log| ==> HookRank(log[i].view) <= HookRank(log[j].view)
    ensures forall i :: 0 <= i < |log| ==> log[i].view in ViewsOf(layout)
  {
    TitleActions(layout, entry) + DateActions(layout, entry)
      + TimeActions(layout, entry, spaceDashSpace) + DetailsActions(layout, entry)
  }

  /** Replaying the recorded calls is running `setTitle`, `setDate`,
      `setTime` and `setDetails` one after the other. */
  lemma RenderVisualizeEvent(layout: Layout, entry: CalendarEntry, spaceDashSpace: string, rv: ViewState)
    ensures Apply(rv, VisualizeEvent(layout, entry, spaceDashSpace))
      == SetDetails(layout, entry, SetTime(layout, entry, spaceDashSpace, SetDate(layout, entry, SetTitle(layout, entry, rv))))
  {
    var t := TitleActions(layout, entry);
    var d := DateActions(layout, entry);
    var m := TimeActions(layout, entry, spaceDashSpace);
    var e := DetailsActions(layout, entry);
    ApplyConcat(rv, t + d + m, e);
    ApplyConcat(rv, t + d, m);
    ApplyConcat(rv, t, d);
  }

  /** Rendering a row leaves every view its layout does not own as it was:
      the default layout never touches the day or time views and the one-line
      layout never touches the details view. */
  lemma VisualizeEventKeepsOtherViews(layout: Layout, entry: CalendarEntry, spaceDashSpace: string, rv: ViewState, v: ViewId)
    requires v !in ViewsOf(layout)
    ensures Agree(rv, Apply(rv, VisualizeEvent(layout, entry, spaceDashSpace)), v)
  {
  }

  /** After a one-line row is rendered, a hidden date format leaves both day
      views gone; any other format leaves exactly one of them visible, the
      left one exactly when the date is shown as text, carrying the date. */
  lemma OneLineRenderedDayViews(entry: CalendarEntry, spaceDashSpace: string, rv: ViewState)
    ensures var t := Apply(rv, VisualizeEvent(OneLine, entry, spaceDashSpace));
      if entry.dateFormat == Hidden then
        Get(t.visibility, Days) == Some(Gone) && Get(t.visibility, DaysRight) == Some(Gone)
      else
        && (Get(t.visibility, Days) == Some(Visible) <==> Get(t.visibility, DaysRight) == Some(Gone))
        && (Get(t.visibility, Days) == Some(Visible) <==> Get(t.visibility, DaysRight) != Some(Visible))
        && (Get(t.visibility, Days) == Some(Visible) <==>
              entry.dateFormat != NumberOfDays || -1 <= entry.daysToEvent <= 1)
        && (Get(t.visibility, Days) == Some(Visible) ==> Get(t.text, Days) == Some(Some(entry.formattedDate)))
        && (Get(t.visibility, DaysRight) == Some(Visible) ==> Get(t.text, DaysRight) == Some(Some(entry.formattedDate)))
  {
    RenderVisualizeEvent(OneLine, entry, spaceDashSpace, rv);
    var s1 := SetTitle(OneLine, entry, rv);
    var s2 := SetDate(OneLine, entry, s1);
    var s3 := SetTime(OneLine, entry, spaceDashSpace, s2);
    assert Agree(s2, s3, Days) && Agree(s2, s3, DaysRight);
  }

  /** After a default row is rendered, its details view is gone exactly when
      the details line is empty and otherwise shows that line; its title view
      shows the bare title. */
  lemma DefaultRenderedDetails(entry: CalendarEntry, spaceDashSpace: string, rv: ViewState)
    ensures var t := Apply(rv, VisualizeEvent(Default, entry, spaceDashSpace));
      && Get(t.text, Title) == Some(entry.title)
      && (Get(t.visibility, Details) == Some(Gone) <==> |entry.details| == 0)
      && (|entry.details| > 0 ==>
            Get(t.visibility, Details) == Some(Visible) && Get(t.text, Details) == Some(Some(entry.details)))
  {
    RenderVisualizeEvent(Default, entry, spaceDashSpace, rv);
    var s1 := SetTitle(Default, entry, rv);
    var s4 := SetDetails(Default, entry, s1);
    assert Agree(s1, s4, Title);
  }
}
