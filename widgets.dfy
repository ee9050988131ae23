/** The page's small interface state machines: the navigation dropdowns
    (index.tsx lines 236-291), the "Save to Calendar" menus (lines 1222-1249),
    the agenda tabs (lines 1101-1122), the FAQ accordion (lines 934-946) and
    the exit-intent dialog's once-per-session flag (lines 948-1005). Each
    list of page elements is a fixed-size array of flags, one per element. */
module Widgets {
  import opened Wrappers
  import Calendar

  // ---------------------------------------------------------------- exclusive menus

  /** At most one flag is set. */
  predicate AtMostOne(s: seq<bool>) {
    forall i, j :: 0 <= i < |s| && 0 <= j < |s| && s[i] && s[j] ==> i == j
  }

  /** The open flags after a click on the toggle of menu `k`: every other
      menu is closed and menu `k` flips. */
  function Toggled(s: seq<bool>, k: nat): (r: seq<bool>)
    requires k < |s|
    ensures |r| == |s|
  {
    seq(|s|, j requires 0 <= j < |s| => j == k && !s[k])
  }

  function AllClosed(n: nat): (r: seq<bool>)
    ensures |r| == n
  {
    seq(n, j => false)
  }

  /** After a click on a toggle exactly menu `k` may be open, and it is open
      exactly when it was closed before. */
  lemma ToggledExclusive(s: seq<bool>, k: nat)
    requires k < |s|
    ensures AtMostOne(Toggled(s, k))
    ensures Toggled(s, k)[k] == !s[k]
    ensures forall j :: 0 <= j < |s| && j != k ==> !Toggled(s, k)[j]
  {
  }

  /** Two clicks on the same toggle leave that menu as it was and every other
      menu closed. */
  lemma ToggledTwice(s: seq<bool>, k: nat)
    requires k < |s|
    ensures Toggled(Toggled(s, k), k)[k] == s[k]
    ensures Toggled(Toggled(s, k), k) == Toggled(AllClosed(|s|), k)[k := s[k]]
  {
  }

  /** The navigation dropdowns: which are open (`dropdown-open`) and each
      toggle's `aria-expanded`. */
  class Dropdowns {
    const open: array<bool>
    const expanded: array<bool>

    /** The open flags and the aria flags agree, and at most one dropdown is
        open. */
    ghost predicate Valid()
      reads this, open, expanded
    {
      open != expanded && open.Length == expanded.Length &&
      AtMostOne(open[..]) && expanded[..] == open[..]
    }

    /** `initializeDropdowns`: every toggle starts with `aria-expanded`
        "false", and no dropdown is open. */
    constructor (n: nat)
      ensures Valid() && fresh(open) && fresh(expanded)
      ensures open[..] == AllClosed(n)
    {
      open := new bool[n](j => false);
      expanded := new bool[n](j => false);
    }

    /** A click on toggle `k`: close every other open dropdown, then flip
        dropdown `k`. */
    method ClickToggle(k: nat)
      requires Valid() && k < open.Length
      modifies open, expanded
      ensures Valid()
      ensures open[..] == Toggled(old(open[..]), k)
    {
      var wasOpen := open[k];
      for j := 0 to open.Length
        invariant forall i :: 0 <= i < j && i != k ==> !open[i]
        invariant forall i :: j <= i < open.Length ==> open[i] == old(open[i])
        invariant open[k] == old(open[k])
        invariant forall i :: 0 <= i < open.Length ==> expanded[i] == open[i]
      {
        if j != k && open[j] {
          open[j] := false;
          expanded[j] := false;
        }
      }
      open[k] := !wasOpen;
      expanded[k] := !wasOpen;
      assert open[..] == Toggled(old(open[..]), k);
      ToggledExclusive(old(open[..]), k);
    }

    /** A click anywhere but on a toggle closes every dropdown. */
    method ClickElsewhere()
      requires Valid()
      modifies open, expanded
      ensures Valid()
      ensures open[..] == AllClosed(open.Length)
    {
      for j := 0 to open.Length
        invariant forall i :: 0 <= i < j ==> !open[i]
        invariant forall i :: 0 <= i < open.Length ==> expanded[i] == open[i]
      {
        if open[j] {
          open[j] := false;
          expanded[j] := false;
        }
      }
    }
  }

  /** The "Save to Calendar" containers: which are open. */
  /** The `data-type` of the link that saves an iCalendar file. */
  const ICAL := "ical"

  class CalendarMenus {
    const open: array<bool>

    constructor (n: nat)
      ensures fresh(open) && open[..] == AllClosed(n)
    {
      open := new bool[n](j => false);
    }

    /** A click on button `k`: remember whether its container was open,
        close every open container, then open `k` if it was closed. */
    method ClickButton(k: nat)
      requires k < open.Length
      modifies open
      ensures open[..] == Toggled(old(open[..]), k)
    {
      var currentlyOpen := open[k];
      for j := 0 to open.Length
        invariant forall i :: 0 <= i < j ==> !open[i]
        invariant forall i :: j <= i < open.Length ==> open[i] == old(open[i])
      {
        if open[j] {
          open[j] := false;
        }
      }
      if !currentlyOpen {
        open[k] := true;
      }
    }

    /** Choosing a calendar of type `linkType` in container `k`, on a card
        whose title text is `title`. Past the early returns (a session card
        with content, and a title holding a time range) the container
        closes. For "ical" the handler first clicks a download link it
        appends to the page body; that click reaches the document's listener
        outside every container, which closes them all. */
    method ChooseLink(k: nat, title: Option<string>, linkType: Option<string>)
      requires k < open.Length
      modifies open
      ensures !Calendar.Reaches(title) ==> open[..] == old(open[..])
      ensures Calendar.Reaches(title) && linkType == Some(ICAL) ==> open[..] == AllClosed(open.Length)
      ensures Calendar.Reaches(title) && linkType != Some(ICAL) ==> open[..] == old(open[..])[k := false]
    {
      if title.None? {
        return;
      }
      if !Calendar.HasTimeStamp(title.value) {
        return;
      }
      if linkType == Some(ICAL) {
        ClickElsewhere();
      }
      open[k] := false;
      assert linkType == Some(ICAL) ==> open[..] == AllClosed(open.Length);
    }

    /** A click outside every container closes them all. */
    method ClickElsewhere()
      modifies open
      ensures open[..] == AllClosed(open.Length)
    {
      for j := 0 to open.Length
        invariant forall i :: 0 <= i < j ==> !open[i]
      {
        if open[j] {
          open[j] := false;
        }
      }
    }
  }

  // ---------------------------------------------------------------- agenda tabs

  /** Only position `k` is set. */
  function OnlyAt(n: nat, k: nat): (r: seq<bool>)
    ensures |r| == n
  {
    seq(n, j => j == k)
  }

  /** `panel.id === tabId` for each panel; a button without `data-tab`
      matches no panel. */
  function PanelsFor(ids: seq<string>, tab: Option<string>): (r: seq<bool>)
    ensures |r| == |ids|
  {
    seq(|ids|, j requires 0 <= j < |ids| => tab == Some(ids[j]))
  }

  predicate Distinct(ids: seq<string>) {
    forall i, j :: 0 <= i < |ids| && 0 <= j < |ids| && ids[i] == ids[j] ==> i == j
  }

  /** After a click exactly the clicked button is active; with distinct panel
      ids the panel named by the button is the only active one, and a name
      that no panel has leaves every panel inactive. */
  lemma TabsExclusive(n: nat, k: nat, ids: seq<string>, tab: Option<string>)
    requires k < n && Distinct(ids)
    ensures var b := OnlyAt(n, k); b[k] && AtMostOne(b)
    ensures AtMostOne(PanelsFor(ids, tab))
    ensures forall j :: 0 <= j < |ids| && tab == Some(ids[j]) ==> PanelsFor(ids, tab)[j]
    ensures (forall j :: 0 <= j < |ids| ==> tab != Some(ids[j])) ==> PanelsFor(ids, tab) == AllClosed(|ids|)
  {
  }

  /** The agenda tabs: the active buttons and the active panels. */
  class Tabs {
    const buttons: array<bool>
    const panels: array<bool>
    const panelIds: seq<string>

    constructor (buttonFlags: seq<bool>, ids: seq<string>, panelFlags: seq<bool>)
      requires |panelFlags| == |ids|
      ensures fresh(buttons) && fresh(panels) && buttons != panels && panelIds == ids
      ensures buttons[..] == buttonFlags && panels[..] == panelFlags
    {
      buttons := new bool[|buttonFlags|](j requires 0 <= j < |buttonFlags| => buttonFlags[j]);
      panels := new bool[|panelFlags|](j requires 0 <= j < |panelFlags| => panelFlags[j]);
      panelIds := ids;
    }

    /** A click on button `k`, whose `data-tab` is `tab`. */
    method ClickTab(k: nat, tab: Option<string>)
      requires k < buttons.Length && panels.Length == |panelIds| && buttons != panels
      modifies buttons, panels
      ensures buttons[..] == OnlyAt(buttons.Length, k)
      ensures panels[..] == PanelsFor(panelIds, tab)
    {
      for j := 0 to buttons.Length
        invariant forall i :: 0 <= i < j ==> !buttons[i]
      {
        buttons[j] := false;
      }
      buttons[k] := true;
      for j := 0 to panels.Length
        invariant forall i :: 0 <= i < j ==> panels[i] == (tab == Some(panelIds[i]))
        invariant buttons[..] == OnlyAt(buttons.Length, k)
      {
        panels[j] := tab == Some(panelIds[j]);
      }
    }
  }

  // ---------------------------------------------------------------- FAQ

  /** Flipping one question twice restores the accordion. */
  lemma FlipTwice(s: seq<bool>, i: nat)
    requires i < |s|
    ensures s[i := !s[i]][i := !s[i := !s[i]][i]] == s
  {
  }

  /** The FAQ items: which are open, and each question's `aria-expanded`. */
  class Faq {
    const open: array<bool>
    const expanded: array<bool>

    constructor (n: nat)
      ensures fresh(open) && fresh(expanded) && open != expanded
      ensures open[..] == AllClosed(n) && expanded[..] == AllClosed(n)
    {
      open := new bool[n](j => false);
      expanded := new bool[n](j => false);
    }

    /** A click on question `i` flips its item and sets its aria flag to the
        item's new state; the other items keep theirs. */
    method ClickQuestion(i: nat)
      requires i < open.Length && i < expanded.Length && open != expanded
      modifies open, expanded
      ensures open[..] == old(open[..])[i := !old(open[i])]
      ensures expanded[..] == old(expanded[..])[i := open[i]]
    {
      open[i] := !open[i];
      expanded[i] := open[i];
    }
  }

  // ---------------------------------------------------------------- exit-intent dialog

  const SHOWN_KEY := "exitModalShown"
  const TRUE_TEXT := "true"

  /** The exit-intent dialog on one page: the session's stored flag under
      `exitModalShown`, whether its triggers are still attached, whether it
      is visible, and how often a trigger has shown it. */
  class ExitModal {
    var stored: Option<string>
    var armed: bool
    var visible: bool
    var shows: nat

    /** The flag stays set once set; a page that reads it set attaches no
        trigger; a trigger shows the dialog at most once. */
    predicate Valid()
      reads this
    {
      shows <= 1 && (shows == 1 ==> stored == Some(TRUE_TEXT) && !armed) &&
      (stored == Some(TRUE_TEXT) ==> !armed)
    }

    /** `initializeExitIntentModal` with the session's current value of the
        flag: the triggers are attached only when it is not "true". */
    constructor (session: Option<string>)
      ensures Valid() && stored == session && !visible && shows == 0
      ensures armed <==> session != Some(TRUE_TEXT)
    {
      stored := session;
      armed := session != Some(TRUE_TEXT);
      visible := false;
      shows := 0;
    }

    /** `showModal`: visible, the flag stored, and the triggers removed. */
    method Show()
      requires Valid() && armed
      modifies this
      ensures Valid() && visible && stored == Some(TRUE_TEXT) && !armed && shows == 1
    {
      visible := true;
      stored := Some(TRUE_TEXT);
      armed := false;
      shows := shows + 1;
    }

    /** One trigger event (the pointer leaving through the top, half the page
        scrolled, or the ten-second timer) with whether its condition holds. */
    method Trigger(condition: bool)
      requires Valid()
      modifies this
      ensures Valid()
      ensures old(armed) && condition ==> visible && stored == Some(TRUE_TEXT) && !armed && shows == 1
      ensures !(old(armed) && condition) ==>
        visible == old(visible) && stored == old(stored) && armed == old(armed) && shows == old(shows)
      ensures old(stored) == Some(TRUE_TEXT) ==> stored == Some(TRUE_TEXT)
    {
      if armed && condition {
        Show();
      }
    }

    /** The close button, a click on the backdrop, or Escape while visible. */
    method Hide()
      requires Valid()
      modifies this`visible
      ensures Valid() && !visible
    {
      visible := false;
    }
  }
}
