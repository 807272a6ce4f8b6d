/** The part of Android's `RemoteViews` the layouts use. A `RemoteViews`
    records the calls made on it as a list of actions, which the host later
    replays onto the inflated row; `Apply` is that replay. */
module RemoteViews {
  import opened Wrappers

  /** The views of an event row (`R.id.event_entry_*`). */
  datatype ViewId = Title | Days | DaysRight | Time | Details

  /** `View.VISIBLE` and `View.GONE`. */
  datatype Visibility = Visible | Gone

  /** The width dimensions a layout may give a view (`R.dimen.*`). */
  datatype WidthRes = DaysToEventWidth | DaysToEventRightWidth | EventTimeWidth

  /** One recorded call: `setViewVisibility`, `setTextViewText`, or
      `setViewWidth` with the chosen dimension. */
  datatype Action =
    | SetVisibility(view: ViewId, visibility: Visibility)
    | SetText(view: ViewId, text: Option<string>)
    | SetWidth(view: ViewId, width: WidthRes)

  /** What has been set on each view so far; a view missing from a map keeps
      whatever the row's layout resource gives it. */
  datatype ViewState = ViewState(
    visibility: map<ViewId, Visibility>,
    text: map<ViewId, Option<string>>,
    width: map<ViewId, WidthRes>)

  /** The views `actions` address. */
  function Touched(actions: seq<Action>): set<ViewId> {
    set i | 0 <= i < |actions| :: actions[i].view
  }

  /** View `v` looks the same in `s` and `t`. */
  predicate Agree(s: ViewState, t: ViewState, v: ViewId) {
    && Get(s.visibility, v) == Get(t.visibility, v)
    && Get(s.text, v) == Get(t.text, v)
    && Get(s.width, v) == Get(t.width, v)
  }

  /** Replays one action. */
  function Step(s: ViewState, a: Action): (t: ViewState)
    ensures forall v :: v != a.view ==> Agree(s, t, v)
  {
    match a
    case SetVisibility(v, vis) => s.(visibility := s.visibility[v := vis])
    case SetText(v, txt) => s.(text := s.text[v := txt])
    case SetWidth(v, w) => s.(width := s.width[v := w])
  }

  /** Replays `actions` in order onto `s`. A view that no action addresses is
      left as it was. */
  function Apply(s: ViewState, actions: seq<Action>): (t: ViewState)
    ensures forall v :: v !in Touched(actions) ==> Agree(s, t, v)
    decreases |actions|
  {
    if |actions| == 0 then s
    else
      assert Touched(actions) == {actions[0].view} + Touched(actions[1..]) by {
        forall v | v in Touched(actions) ensures v in {actions[0].view} + Touched(actions[1..]) {
          var i :| 0 <= i < |actions| && actions[i].view == v;
          if i > 0 { assert actions[1..][i - 1] == actions[i]; }
        }
      }
      Apply(Step(s, actions[0]), actions[1..])
  }

  /** Replaying a list of at most four actions is replaying them one by
      one. */
  lemma ApplyShort(s: ViewState, actions: seq<Action>)
    requires |actions| <= 4
    ensures |actions| == 0 ==> Apply(s, actions) == s
    ensures |actions| == 1 ==> Apply(s, actions) == Step(s, actions[0])
    ensures |actions| == 2 ==> Apply(s, actions) == Step(Step(s, actions[0]), actions[1])
    ensures |actions| == 3 ==>
      Apply(s, actions) == Step(Step(Step(s, actions[0]), actions[1]), actions[2])
    ensures |actions| == 4 ==>
      Apply(s, actions) == Step(Step(Step(Step(s, actions[0]), actions[1]), actions[2]), actions[3])
    decreases |actions|
  {
    if |actions| > 0 {
      ApplyShort(Step(s, actions[0]), actions[1..]);
    }
  }

  /** Replaying two recorded lists one after the other is replaying their
      concatenation. */
  lemma {:induction false} ApplyConcat(s: ViewState, a: seq<Action>, b: seq<Action>)
    ensures Apply(s, a + b) == Apply(Apply(s, a), b)
    decreases |a|
  {
    if |a| > 0 {
      assert (a + b)[0] == a[0];
      assert (a + b)[1..] == a[1..] + b;
      ApplyConcat(Step(s, a[0]), a[1..], b);
    } else {
      assert a + b == b;
    }
  }
}
