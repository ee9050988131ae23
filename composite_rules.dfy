/** The validators that look at several elements at once: the student form's
    `validateInterestCheckboxes` (index.tsx lines 511-531) and the speaker
    form's `customValidation` (lines 804-841). Each is a verdict function, an
    effect on the page, and a method on the form's error board that performs
    the same steps in the source's order. */
module CompositeRules {
  import opened Wrappers
  import opened Text
  import opened ErrorDisplay

  const NO_INTEREST_MESSAGE := "Please select at least one area of interest."
  const OTHER_INTEREST_MESSAGE := "Please specify your area of interest."
  const NO_SESSION_MESSAGE := "Please select at least one session from Day 1 or Day 2."
  const NO_HEADSHOT_MESSAGE := "A professional headshot is required."
  const NO_OPTION_MESSAGE := "Please select an option."

  // ---------------------------------------------------------------- interests

  /** The interest checkboxes of the student form: the container (absent when
      the page has none), how many boxes are checked, the 'other' box and its
      text input with the input's value. */
  datatype InterestGroup = InterestGroup(
    container: Option<nat>, checkedCount: nat,
    otherChecked: bool, otherInput: Option<nat>, otherValue: string)

  predicate InterestFits(l: Layout, g: InterestGroup)
    requires WellFormed(l)
  {
    (g.container.Some? ==> g.container.value < |l.groupOf|) &&
    (g.otherInput.Some? ==> g.otherInput.value < |l.groupOf|)
  }

  /** The other-text rule: the 'other' box is checked and its text input,
      when there is one, holds only whitespace. */
  predicate OtherMissing(g: InterestGroup) {
    g.otherChecked && g.otherInput.Some? && Trim(g.otherValue) == ""
  }

  /** `None` when the group passes, else the message it shows. */
  function InterestVerdict(g: InterestGroup): Option<string> {
    if g.container.None? then None
    else if g.checkedCount == 0 then Some(NO_INTEREST_MESSAGE)
    else if OtherMissing(g) then Some(OTHER_INTEREST_MESSAGE)
    else None
  }

  /** With a container, the group passes exactly when some box is checked and
      a checked 'other' box comes with non-blank text. */
  lemma InterestVerdictIff(g: InterestGroup)
    requires g.container.Some?
    ensures InterestVerdict(g) == None <==>
      g.checkedCount > 0 && !(g.otherChecked && g.otherInput.Some? && AllSpace(g.otherValue))
    ensures g.checkedCount == 0 ==> InterestVerdict(g) == Some(NO_INTEREST_MESSAGE)
  {
  }

  /** The page after `validateInterestCheckboxes`. With no box checked only
      the container's error is set; the other-text error is left as it was. */
  function InterestEffect(l: Layout, s: Screen, g: InterestGroup): (r: Screen)
    requires WellFormed(l) && Fits(l, s) && InterestFits(l, g)
    ensures Fits(l, r)
  {
    if g.container.None? then s
    else if g.checkedCount == 0 then Show(l, s, g.container.value, NO_INTEREST_MESSAGE)
    else
      var c := Clear(l, s, g.container.value);
      if OtherMissing(g) then Show(l, c, g.otherInput.value, OTHER_INTEREST_MESSAGE)
      else if g.otherInput.Some? then Clear(l, c, g.otherInput.value)
      else c
  }

  /** The container's error element reports whether any box is checked; when
      some box is, the other-text input's error element (if it is a different
      one) reports the other-text rule. */
  lemma InterestReports(l: Layout, s: Screen, g: InterestGroup)
    requires WellFormed(l) && Fits(l, s) && InterestFits(l, g) && g.container.Some?
    requires Target(l, g.container.value).Some?
    requires g.otherInput.Some? ==> Target(l, g.otherInput.value) != Target(l, g.container.value)
    ensures var gc := Target(l, g.container.value).value;
      var r := InterestEffect(l, s, g);
      (r.shown[gc] <==> g.checkedCount == 0) &&
      r.message[gc] == (if g.checkedCount == 0 then NO_INTEREST_MESSAGE else "")
    ensures g.checkedCount > 0 && g.otherInput.Some? && Target(l, g.otherInput.value).Some? ==>
      var go := Target(l, g.otherInput.value).value;
      var r := InterestEffect(l, s, g);
      (r.shown[go] <==> OtherMissing(g)) &&
      r.message[go] == (if OtherMissing(g) then OTHER_INTEREST_MESSAGE else "")
  {
  }

  method ValidateInterests(board: ErrorBoard, g: InterestGroup) returns (valid: bool)
    requires board.Valid() && InterestFits(board.layout, g)
    modifies board
    ensures board.Valid() && board.Current() == InterestEffect(board.layout, old(board.Current()), g)
    ensures valid <==> InterestVerdict(g) == None
  {
    if g.container.None? {
      return true;
    }
    if g.checkedCount == 0 {
      board.ShowError(g.container.value, NO_INTEREST_MESSAGE);
      return false;
    }
    board.ClearError(g.container.value);
    if g.otherChecked && g.otherInput.Some? && Trim(g.otherValue) == "" {
      board.ShowError(g.otherInput.value, OTHER_INTEREST_MESSAGE);
      return false;
    }
    if g.otherInput.Some? {
      board.ClearError(g.otherInput.value);
    }
    return true;
  }

  // ---------------------------------------------------------------- speaker

  /** An element of the speaker form with the number of its choices made:
      checked boxes of a session group, files of the headshot input, checked
      radios of a consent group. */
  datatype Part = Part(element: nat, count: nat)

  /** The speaker form's extra elements; each may be missing from the page. */
  datatype SpeakerGroups = SpeakerGroups(
    day1: Option<Part>, day2: Option<Part>, headshot: Option<Part>,
    promo: Option<Part>, record: Option<Part>)

  predicate PartFits(l: Layout, p: Option<Part>)
    requires WellFormed(l)
  {
    p.Some? ==> p.value.element < |l.groupOf|
  }

  predicate SpeakerFits(l: Layout, g: SpeakerGroups)
    requires WellFormed(l)
  {
    PartFits(l, g.day1) && PartFits(l, g.day2) && PartFits(l, g.headshot) &&
    PartFits(l, g.promo) && PartFits(l, g.record)
  }

  /** A part fails when it is on the page and nothing is chosen in it. */
  predicate Empty(p: Option<Part>) {
    p.Some? && p.value.count == 0
  }

  /** The sessions fail only when both groups are on the page and neither
      has a checked box. */
  predicate SessionsFail(g: SpeakerGroups) {
    Empty(g.day1) && Empty(g.day2)
  }

  /** The conjunction `customValidation` returns. */
  predicate SpeakerValid(g: SpeakerGroups) {
    !SessionsFail(g) && !Empty(g.headshot) && !Empty(g.promo) && !Empty(g.record)
  }

  /** Clearing a part that may be missing. */
  function ClearPart(l: Layout, s: Screen, p: Option<Part>): (r: Screen)
    requires WellFormed(l) && Fits(l, s) && PartFits(l, p)
    ensures Fits(l, r)
  {
    if p.Some? then Clear(l, s, p.value.element) else s
  }

  /** One of the "show when empty, else clear" checks. */
  function CheckPart(l: Layout, s: Screen, p: Option<Part>, msg: string): (r: Screen)
    requires WellFormed(l) && Fits(l, s) && PartFits(l, p)
    ensures Fits(l, r)
  {
    if Empty(p) then Show(l, s, p.value.element, msg) else ClearPart(l, s, p)
  }

  function SessionEffect(l: Layout, s: Screen, g: SpeakerGroups): (r: Screen)
    requires WellFormed(l) && Fits(l, s) && SpeakerFits(l, g)
    ensures Fits(l, r)
  {
    if SessionsFail(g) then Show(l, s, g.day1.value.element, NO_SESSION_MESSAGE)
    else ClearPart(l, ClearPart(l, s, g.day1), g.day2)
  }

  /** The page after `customValidation`: all four checks, in order. */
  function SpeakerEffect(l: Layout, s: Screen, g: SpeakerGroups): (r: Screen)
    requires WellFormed(l) && Fits(l, s) && SpeakerFits(l, g)
    ensures Fits(l, r)
  {
    var s1 := SessionEffect(l, s, g);
    var s2 := CheckPart(l, s1, g.headshot, NO_HEADSHOT_MESSAGE);
    var s3 := CheckPart(l, s2, g.promo, NO_OPTION_MESSAGE);
    CheckPart(l, s3, g.record, NO_OPTION_MESSAGE)
  }

  /** The error element of a part that may be missing. */
  function PartTarget(l: Layout, p: Option<Part>): Option<nat>
    requires WellFormed(l) && PartFits(l, p)
  {
    if p.Some? then Target(l, p.value.element) else None
  }

  /** A check on a part leaves every error element but the part's own alone. */
  lemma CheckPartElsewhere(l: Layout, s: Screen, p: Option<Part>, msg: string, t: nat)
    requires WellFormed(l) && Fits(l, s) && PartFits(l, p) && t < |l.hasMessage|
    requires PartTarget(l, p) != Some(t)
    ensures CheckPart(l, s, p, msg).message[t] == s.message[t]
    ensures CheckPart(l, s, p, msg).shown[t] == s.shown[t]
  {
  }

  /** A check on a part makes the part's own error element report it. */
  lemma CheckPartHere(l: Layout, s: Screen, p: Option<Part>, msg: string)
    requires WellFormed(l) && Fits(l, s) && PartFits(l, p) && PartTarget(l, p).Some?
    ensures CheckPart(l, s, p, msg).shown[PartTarget(l, p).value] <==> Empty(p)
    ensures CheckPart(l, s, p, msg).message[PartTarget(l, p).value] == (if Empty(p) then msg else "")
  {
  }

  /** Every check runs whatever the earlier ones found: when the headshot
      and the two consent groups have error elements of their own, each of
      them reports its own part, so a missing headshot does not hide a missing
      consent choice and the other way round. */
  lemma SpeakerReportsEachPart(l: Layout, s: Screen, g: SpeakerGroups)
    requires WellFormed(l) && Fits(l, s) && SpeakerFits(l, g)
    requires PartTarget(l, g.headshot).Some? && PartTarget(l, g.promo).Some? && PartTarget(l, g.record).Some?
    requires PartTarget(l, g.headshot) != PartTarget(l, g.promo)
    requires PartTarget(l, g.headshot) != PartTarget(l, g.record)
    requires PartTarget(l, g.promo) != PartTarget(l, g.record)
    ensures var r := SpeakerEffect(l, s, g);
      (r.shown[PartTarget(l, g.headshot).value] <==> Empty(g.headshot)) &&
      (r.shown[PartTarget(l, g.promo).value] <==> Empty(g.promo)) &&
      (r.shown[PartTarget(l, g.record).value] <==> Empty(g.record))
  {
    var s1 := SessionEffect(l, s, g);
    var s2 := CheckPart(l, s1, g.headshot, NO_HEADSHOT_MESSAGE);
    var s3 := CheckPart(l, s2, g.promo, NO_OPTION_MESSAGE);
    var th, tp, tr := PartTarget(l, g.headshot).value, PartTarget(l, g.promo).value, PartTarget(l, g.record).value;
    CheckPartHere(l, s1, g.headshot, NO_HEADSHOT_MESSAGE);
    CheckPartElsewhere(l, s2, g.promo, NO_OPTION_MESSAGE, th);
    CheckPartElsewhere(l, s3, g.record, NO_OPTION_MESSAGE, th);
    CheckPartHere(l, s2, g.promo, NO_OPTION_MESSAGE);
    CheckPartElsewhere(l, s3, g.record, NO_OPTION_MESSAGE, tp);
    CheckPartHere(l, s3, g.record, NO_OPTION_MESSAGE);
  }

  /** The session groups report on the first group's error element: shown
      exactly when both groups are present and empty, provided the later checks
      write elsewhere. */
  lemma SpeakerReportsSessions(l: Layout, s: Screen, g: SpeakerGroups)
    requires WellFormed(l) && Fits(l, s) && SpeakerFits(l, g)
    requires PartTarget(l, g.day1).Some?
    requires PartTarget(l, g.day1) != PartTarget(l, g.headshot)
    requires PartTarget(l, g.day1) != PartTarget(l, g.promo)
    requires PartTarget(l, g.day1) != PartTarget(l, g.record)
    ensures SpeakerEffect(l, s, g).shown[PartTarget(l, g.day1).value] <==> SessionsFail(g)
  {
    var t := PartTarget(l, g.day1).value;
    var s1 := SessionEffect(l, s, g);
    var s2 := CheckPart(l, s1, g.headshot, NO_HEADSHOT_MESSAGE);
    var s3 := CheckPart(l, s2, g.promo, NO_OPTION_MESSAGE);
    assert s1.shown[t] <==> SessionsFail(g);
    CheckPartElsewhere(l, s1, g.headshot, NO_HEADSHOT_MESSAGE, t);
    CheckPartElsewhere(l, s2, g.promo, NO_OPTION_MESSAGE, t);
    CheckPartElsewhere(l, s3, g.record, NO_OPTION_MESSAGE, t);
  }

  /** A missing element never fails its check. */
  lemma MissingPartsPass(g: SpeakerGroups)
    requires g.headshot.None? && g.promo.None? && g.record.None?
    ensures SpeakerValid(g) <==> !SessionsFail(g)
    ensures g.day1.None? || g.day2.None? ==> SpeakerValid(g)
  {
  }

  method ValidateSpeaker(board: ErrorBoard, g: SpeakerGroups) returns (allValid: bool)
    requires board.Valid() && SpeakerFits(board.layout, g)
    modifies board
    ensures board.Valid() && board.Current() == SpeakerEffect(board.layout, old(board.Current()), g)
    ensures allValid <==> SpeakerValid(g)
  {
    allValid := true;
    var day1Checked := g.day1.Some? && g.day1.value.count > 0;
    var day2Checked := g.day2.Some? && g.day2.value.count > 0;
    if g.day1.Some? && g.day2.Some? && !day1Checked && !day2Checked {
      board.ShowError(g.day1.value.element, NO_SESSION_MESSAGE);
      allValid := false;
    } else {
      if g.day1.Some? {
        board.ClearError(g.day1.value.element);
      }
      if g.day2.Some? {
        board.ClearError(g.day2.value.element);
      }
    }
    var headshotOk := CheckOne(board, g.headshot, NO_HEADSHOT_MESSAGE);
    var promoOk := CheckOne(board, g.promo, NO_OPTION_MESSAGE);
    var recordOk := CheckOne(board, g.record, NO_OPTION_MESSAGE);
    allValid := allValid && headshotOk && promoOk && recordOk;
  }

  /** One "show when empty, else clear" step; the result is `false` when the
      part fails. */
  method CheckOne(board: ErrorBoard, p: Option<Part>, msg: string) returns (ok: bool)
    requires board.Valid() && PartFits(board.layout, p)
    modifies board
    ensures board.Valid() && board.Current() == CheckPart(board.layout, old(board.Current()), p, msg)
    ensures ok <==> !Empty(p)
  {
    ok := true;
    if p.Some? && p.value.count == 0 {
      board.ShowError(p.value.element, msg);
      ok := false;
    } else if p.Some? {
      board.ClearError(p.value.element);
    }
  }
}
