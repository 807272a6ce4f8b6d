# Event row layouts of the calendar widget

This project models `EventEntryLayout`, the enum that fills one event row of
the calendar home-screen widget. It has two variants. `DEFAULT` is a
multi-line row: the title, then a details line. `ONE_LINE` puts the title and
location on one line, with a day view and a time view beside it.

The model covers the enum's pure decisions and strings:

- `appendWithSeparator`, the three-way join that treats null or empty operands specially;
- `fromValue`, which parses the stored preference string;
- the title string each variant shows;
- the `ONE_LINE` choice between the left ("days as text") and right ("number of days") day view;
- the `DEFAULT` rule that hides the details view when its text is empty;
- the `visualizeEvent` template method, which runs the hooks title, date, time and details in that order.

Android's `RemoteViews` is modelled as what it is: a list of recorded calls
(`RemoteViews.Action`). A view-state replay (`RemoteViews.Apply`) gives those
calls their meaning. Each hook is a function from a view state to a view
state. `VisualizeEvent` returns the list of calls the whole row records.

Files:

- `wrappers.dfy`: `Option`, used for Java's nullable references, and map lookup.
- `strings.dfy`: `StringUtil.isEmpty` and Java's `String.replace`.
- `remote_views.dfy`: the views of a row, the recorded calls and their replay.
- `event_entry_layout.dfy`: the enum and its hooks.

Inputs that come from code outside this model are parameters:

- the entry's title and location, both possibly null;
- the formatted date, the event-time string and the composed details line;
- the date format type and the number of days to the event;
- the value of `CalendarEntry.SPACE_DASH_SPACE` (`spaceDashSpace`).

Assumption: `StringUtil.isEmpty` is not part of this model. It is taken to mean "null or of length 0".

## Model

| member | source | states |
|---|---|---|
| EventEntryLayout.AppendWithSeparator | app/src/main/java/org/andstatus/todoagenda/widget/EventEntryLayout.java:148-154 | an empty or null `input` yields `toAppend` unchanged, null included; a non-empty `input` with a null or empty `toAppend` yields `input`; otherwise the result starts with `input`, then holds the separator, ends with `toAppend`, and its length is the sum of the three |
| EventEntryLayout.AppendWithSeparatorEmpty | app/src/main/java/org/andstatus/todoagenda/widget/EventEntryLayout.java:148-154 | the joined string is empty iff both operands are empty, and it is null iff `input` is empty and `toAppend` is null |
| EventEntryLayout.FindByValue | app/src/main/java/org/andstatus/todoagenda/widget/EventEntryLayout.java:106-112 | the search loop finds a layout among the items whose stored value equals the given string, and finds none iff no item's value equals it (null never matches) |
| EventEntryLayout.FromValue | app/src/main/java/org/andstatus/todoagenda/widget/EventEntryLayout.java:105-114 | a string equal to a layout's value parses to that layout, so `FromValue(Some(l.Value())) == l` for both layouts; null and every other string give `DEFAULT` |
| EventEntryLayout.TitleString | app/src/main/java/org/andstatus/todoagenda/widget/EventEntryLayout.java:48-50 | `DEFAULT` shows the raw title (lines 132-134); `ONE_LINE` shows the location when the title is empty, the title when the location is empty, and otherwise title + `"  |  "` + location |
| EventEntryLayout.SetTitle | app/src/main/java/org/andstatus/todoagenda/widget/EventEntryLayout.java:123-130 | the title view's text becomes the layout's title string; no visibility, width or other view changes |
| EventEntryLayout.SetDate | app/src/main/java/org/andstatus/todoagenda/widget/EventEntryLayout.java:53-76 | `DEFAULT` changes nothing. For `ONE_LINE`, a `HIDDEN` format sets both day views `GONE` and changes no text or width. Any other format makes exactly one day view `VISIBLE` and the other `GONE`. The left view is shown iff the format is not `NUMBER_OF_DAYS` or the day count is in -1..1. Only the shown view gets the date text and its width (`days_to_event_width` left, `days_to_event_right_width` right). No other view changes |
| EventEntryLayout.SetTime | app/src/main/java/org/andstatus/todoagenda/widget/EventEntryLayout.java:79-89 | `DEFAULT` changes nothing; `ONE_LINE` sets the time text to the event time with every `SPACE_DASH_SPACE` replaced by a line break, and sets the time width; no visibility or other view changes |
| EventEntryLayout.SetDetails | app/src/main/java/org/andstatus/todoagenda/widget/EventEntryLayout.java:28-44 | `ONE_LINE` changes nothing. For `DEFAULT`, the details view is `GONE` iff the details line is empty, and `VISIBLE` iff it is not. When it is visible, its text is that line. No other view changes |
| EventEntryLayout.VisualizeEvent | app/src/main/java/org/andstatus/todoagenda/widget/EventEntryLayout.java:116-121 | the recorded calls start with the title text. They are grouped by hook in the order title, date, time, details. Every call addresses a view the layout owns: title and details for `DEFAULT`; title, both day views and time for `ONE_LINE` |
| EventEntryLayout.RenderVisualizeEvent | app/src/main/java/org/andstatus/todoagenda/widget/EventEntryLayout.java:116-121 | replaying the recorded calls equals running `setTitle`, `setDate`, `setTime`, `setDetails` one after the other |
| EventEntryLayout.VisualizeEventKeepsOtherViews | app/src/main/java/org/andstatus/todoagenda/widget/EventEntryLayout.java:136-146 | the base hooks do nothing, so a rendered row leaves every view its layout does not own as it was: `DEFAULT` never touches the day or time views, and `ONE_LINE` never touches the details view |
| EventEntryLayout.OneLineRenderedDayViews | app/src/main/java/org/andstatus/todoagenda/widget/EventEntryLayout.java:54-67 | after a full `ONE_LINE` render, `HIDDEN` leaves both day views `GONE`. Otherwise exactly one is `VISIBLE`: the left one iff the date is shown as text. The visible one carries the formatted date |
| EventEntryLayout.DefaultRenderedDetails | app/src/main/java/org/andstatus/todoagenda/widget/EventEntryLayout.java:34-38 | after a full `DEFAULT` render, the title view holds the bare title. The details view is `GONE` iff the details line is empty; otherwise it is `VISIBLE` with that line as its text |
| Strings.Replace | app/src/main/java/org/andstatus/todoagenda/widget/EventEntryLayout.java:82-83 | Java's `String.replace`, with strings taken as sequences of characters. With an empty target the length grows by (n+1) times the replacement's length. A non-empty target with a replacement no longer than it never lengthens the string. A string shorter than the target is unchanged |
| Strings.ReplaceEmptyTarget | app/src/main/java/org/andstatus/todoagenda/widget/EventEntryLayout.java:82-83 | an empty target puts a copy of the replacement before every character and one at the end. Slot i of the result is one copy followed by the i-th character, and one more copy closes the result |
| Strings.ReplaceFirstOccurrence | app/src/main/java/org/andstatus/todoagenda/widget/EventEntryLayout.java:82-83 | the first occurrence of a non-empty `SPACE_DASH_SPACE` is replaced: the text before it is kept, the occurrence becomes the line break, and replacing resumes right after it; with `ReplaceWithoutOccurrence` this fixes the shown time text for every input |
| Strings.ReplaceWithoutOccurrence | app/src/main/java/org/andstatus/todoagenda/widget/EventEntryLayout.java:82-83 | a time string that holds no `SPACE_DASH_SPACE` is shown unchanged |
| Strings.ReplaceRoundTrip | app/src/main/java/org/andstatus/todoagenda/widget/EventEntryLayout.java:82-83 | when the time string holds no line break, turning the line breaks back into `SPACE_DASH_SPACE` recovers the original string, whatever the separator is |

## Left out

- Text sizes, text colours, shading and theme lookups, and `setMultiline`. These are calls into the GUI toolkit that only style a view. The one exception is `setViewWidth`: its chosen dimension is kept as a `WidthRes` tag.
- `layoutId` and `summaryResId`, the layout and string resource ids: they are opaque platform integers.
- How `MyStringBuilder` composes the `DEFAULT` details line from the date, time and location. Its source is not part of this model, so the finished line is a parameter, and "empty" means length 0.
- `CalendarEntry.formatEntryDate`, `getEventTimeString`, `getLocationString`, `getNumberOfDaysToEvent`: their sources are not part of this model; their results are inputs.
- The value of `CalendarEntry.SPACE_DASH_SPACE`: it is not part of this model and is a parameter.
- EventEntryLayout.AppendWithSeparator: the separator is never null. The only caller in this class passes `SPACE_PIPE_SPACE`, so Java's `"null"` for a null separator is not modelled.
- The date format types other than `HIDDEN` and `NUMBER_OF_DAYS` are one constructor, `OtherFormat`, because the layouts treat them alike.
- A null event-time string: `ONE_LINE.setTime` would throw on it. The model takes that string as non-null.
- A null formatted date: `formatEntryDate()` is taken as non-null (`CalendarEntry.formattedDate` is a plain string). Its source is not part of this model; `setTextViewText` would accept null.
- Strings.Replace: strings are sequences of Unicode scalar values, not of UTF-16 code units as a Java `String` is. Equality, concatenation and emptiness are unaffected. Only `replace` with an empty target differs: Java also inserts the replacement between the two halves of a surrogate pair, which this model does not. Lone surrogates cannot be represented.
