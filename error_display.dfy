/** The error display of a form: `showError` and `clearError` (index.tsx
    lines 9-35) and the effect of running `validateField` (lines 38-168) over
    the required inputs of a form.

    An element belongs to at most one group (the nearest `.form-group`,
    `.form-group-consent` or `.interest-group-container`); a group may hold an
    `.error-message` element, whose text and visibility the helpers set; an
    element other than a div, a file input or a box inside a consent group
    also carries the `invalid` class. */
module ErrorDisplay {
  import opened Wrappers
  import opened FieldValidator

  /** The fixed shape of a form: `groupOf[e]` is the group of element `e`,
      `hasMessage[g]` says whether group `g` holds an error element, and
      `marks[e]` whether element `e` takes the `invalid` class. */
  datatype Layout = Layout(groupOf: seq<Option<nat>>, hasMessage: seq<bool>, marks: seq<bool>)

  predicate WellFormed(l: Layout) {
    |l.marks| == |l.groupOf| &&
    forall e :: 0 <= e < |l.groupOf| && l.groupOf[e].Some? ==> l.groupOf[e].value < |l.hasMessage|
  }

  /** What the page shows: each group's error text and whether it is
      displayed, and each element's `invalid` class. */
  datatype Screen = Screen(message: seq<string>, shown: seq<bool>, invalid: seq<bool>)

  predicate Fits(l: Layout, s: Screen) {
    |s.message| == |l.hasMessage| && |s.shown| == |l.hasMessage| && |s.invalid| == |l.groupOf|
  }

  /** The page before any validation: no text, nothing shown, no mark. */
  function Blank(l: Layout): (s: Screen)
    ensures Fits(l, s)
    ensures forall g :: 0 <= g < |s.message| ==> s.message[g] == "" && !s.shown[g]
    ensures forall e :: 0 <= e < |s.invalid| ==> !s.invalid[e]
  {
    Screen(seq(|l.hasMessage|, _ => ""), seq(|l.hasMessage|, _ => false), seq(|l.groupOf|, _ => false))
  }

  /** The error element an element writes to, if its group has one. */
  function Target(l: Layout, e: nat): Option<nat>
    requires WellFormed(l) && e < |l.groupOf|
  {
    match l.groupOf[e]
    case None => None
    case Some(g) => if l.hasMessage[g] then Some(g) else None
  }

  /** Whether the helpers touch the element's `invalid` class: only when it
      has a group (both helpers return early without one). */
  predicate Marked(l: Layout, e: nat)
    requires WellFormed(l) && e < |l.groupOf|
  {
    l.groupOf[e].Some? && l.marks[e]
  }

  /** `showError` when `on`, `clearError` (with `msg` the empty text) when not:
      the element's error element gets the text and the visibility, the
      element's class is set or removed, and nothing else changes. */
  function Write(l: Layout, s: Screen, e: nat, msg: string, on: bool): (r: Screen)
    requires WellFormed(l) && Fits(l, s) && e < |l.groupOf|
    ensures Fits(l, r)
    ensures forall g :: 0 <= g < |r.message| ==>
      r.message[g] == (if Target(l, e) == Some(g) then msg else s.message[g]) &&
      r.shown[g] == (if Target(l, e) == Some(g) then on else s.shown[g])
    ensures forall x :: 0 <= x < |r.invalid| ==>
      r.invalid[x] == (if x == e && Marked(l, e) then on else s.invalid[x])
  {
    var m := if Target(l, e).Some? then s.message[Target(l, e).value := msg] else s.message;
    var sh := if Target(l, e).Some? then s.shown[Target(l, e).value := on] else s.shown;
    var inv := if Marked(l, e) then s.invalid[e := on] else s.invalid;
    Screen(m, sh, inv)
  }

  function Show(l: Layout, s: Screen, e: nat, msg: string): (r: Screen)
    requires WellFormed(l) && Fits(l, s) && e < |l.groupOf|
    ensures Fits(l, r)
  {
    Write(l, s, e, msg, true)
  }

  function Clear(l: Layout, s: Screen, e: nat): (r: Screen)
    requires WellFormed(l) && Fits(l, s) && e < |l.groupOf|
    ensures Fits(l, r)
  {
    Write(l, s, e, "", false)
  }

  /** Clearing removes every trace of an earlier `showError` on the same
      element. */
  lemma ClearAfterShow(l: Layout, s: Screen, e: nat, msg: string)
    requires WellFormed(l) && Fits(l, s) && e < |l.groupOf|
    ensures Clear(l, Show(l, s, e, msg), e) == Clear(l, s, e)
  {
    var a := Clear(l, Show(l, s, e, msg), e);
    var b := Clear(l, s, e);
    assert a.message == b.message;
    assert a.shown == b.shown;
    assert a.invalid == b.invalid;
  }

  /** A required input of a form: the element it is, and what
      `validateField` reads from it. */
  datatype FieldInput = FieldInput(element: nat, id: string, value: string, required: bool, checked: bool)

  function Decision(f: FieldInput): Option<string> {
    Decide(f.id, f.value, f.required, f.checked)
  }

  /** The text an error element holds after a decision. */
  function ErrorText(d: Option<string>): string {
    if d.Some? then d.value else ""
  }

  predicate InputsFit(l: Layout, ins: seq<FieldInput>)
    requires WellFormed(l)
  {
    forall i :: 0 <= i < |ins| ==> ins[i].element < |l.groupOf|
  }

  /** `validateField`'s effect: clear, then show the message when invalid.
      The element's error element and class end up reporting the decision
      alone, whatever they showed before. */
  function Apply(l: Layout, s: Screen, f: FieldInput): (r: Screen)
    requires WellFormed(l) && Fits(l, s) && f.element < |l.groupOf|
    ensures Fits(l, r)
    ensures forall g :: 0 <= g < |r.message| ==>
      r.message[g] == (if Target(l, f.element) == Some(g) then ErrorText(Decision(f)) else s.message[g]) &&
      r.shown[g] == (if Target(l, f.element) == Some(g) then Decision(f).Some? else s.shown[g])
    ensures forall x :: 0 <= x < |r.invalid| ==>
      r.invalid[x] == (if x == f.element && Marked(l, x) then Decision(f).Some? else s.invalid[x])
  {
    var c := Clear(l, s, f.element);
    match Decision(f)
    case None => c
    case Some(msg) => Show(l, c, f.element, msg)
  }

  /** Validating every required input in order (`inputs.map(validateField)`). */
  function ApplyAll(l: Layout, s: Screen, ins: seq<FieldInput>): (r: Screen)
    requires WellFormed(l) && Fits(l, s) && InputsFit(l, ins)
    ensures Fits(l, r)
  {
    if |ins| == 0 then s
    else Apply(l, ApplyAll(l, s, ins[..|ins| - 1]), ins[|ins| - 1])
  }

  /** `.every(Boolean)` over the mapped results. */
  predicate AllValid(ins: seq<FieldInput>) {
    forall i :: 0 <= i < |ins| ==> Decision(ins[i]) == None
  }

  /** The last input that writes to error element `g`, if any. */
  function LastTarget(l: Layout, ins: seq<FieldInput>, g: nat): (r: Option<nat>)
    requires WellFormed(l) && InputsFit(l, ins)
    ensures r.Some? ==> r.value < |ins| && Target(l, ins[r.value].element) == Some(g)
    ensures r.Some? ==> forall j :: r.value < j < |ins| ==> Target(l, ins[j].element) != Some(g)
    ensures r.None? ==> forall j :: 0 <= j < |ins| ==> Target(l, ins[j].element) != Some(g)
  {
    if |ins| == 0 then None
    else if Target(l, ins[|ins| - 1].element) == Some(g) then Some(|ins| - 1)
    else LastTarget(l, ins[..|ins| - 1], g)
  }

  /** The last input on element `e`, if `e` takes the `invalid` class. */
  function LastMark(l: Layout, ins: seq<FieldInput>, e: nat): (r: Option<nat>)
    requires WellFormed(l) && InputsFit(l, ins) && e < |l.groupOf|
    ensures r.Some? ==> r.value < |ins| && ins[r.value].element == e && Marked(l, e)
    ensures r.Some? ==> forall j :: r.value < j < |ins| ==> ins[j].element != e
    ensures r.None? ==> !Marked(l, e) || forall j :: 0 <= j < |ins| ==> ins[j].element != e
  {
    if |ins| == 0 || !Marked(l, e) then None
    else if ins[|ins| - 1].element == e then Some(|ins| - 1)
    else LastMark(l, ins[..|ins| - 1], e)
  }

  lemma InputsFitPrefix(l: Layout, ins: seq<FieldInput>, n: nat)
    requires WellFormed(l) && InputsFit(l, ins) && n <= |ins|
    ensures InputsFit(l, ins[..n])
  {
  }

  /** One more input is one more `validateField` call. */
  lemma ApplyAllStep(l: Layout, s: Screen, ins: seq<FieldInput>, i: nat)
    requires WellFormed(l) && Fits(l, s) && InputsFit(l, ins) && i < |ins|
    ensures InputsFit(l, ins[..i]) && InputsFit(l, ins[..i + 1])
    ensures ApplyAll(l, s, ins[..i + 1]) == Apply(l, ApplyAll(l, s, ins[..i]), ins[i])
  {
    assert ins[..i + 1][..i] == ins[..i];
  }

  /** The verdicts of the first `i` inputs extend by the next one. */
  lemma VerdictsStep(ins: seq<FieldInput>, results: seq<bool>, i: nat, v: bool)
    requires i < |ins| && |results| == i
    requires forall k :: 0 <= k < i ==> (results[k] <==> Decision(ins[k]) == None)
    requires v <==> Decision(ins[i]) == None
    ensures forall k :: 0 <= k < i + 1 ==> ((results + [v])[k] <==> Decision(ins[k]) == None)
  {
    forall k | 0 <= k < i + 1
      ensures (results + [v])[k] <==> Decision(ins[k]) == None
    {
      if k < i {
        assert (results + [v])[k] == results[k];
      }
    }
  }

  /** After validating all inputs, each error element reports the decision of
      the last input that writes to it, and keeps its old content when none
      does. */
  lemma {:induction false} ApplyAllGroup(l: Layout, s: Screen, ins: seq<FieldInput>, g: nat)
    requires WellFormed(l) && Fits(l, s) && InputsFit(l, ins) && g < |l.hasMessage|
    ensures ApplyAll(l, s, ins).message[g] ==
      (if LastTarget(l, ins, g).Some? then ErrorText(Decision(ins[LastTarget(l, ins, g).value])) else s.message[g])
    ensures ApplyAll(l, s, ins).shown[g] ==
      (if LastTarget(l, ins, g).Some? then Decision(ins[LastTarget(l, ins, g).value]).Some? else s.shown[g])
  {
    if |ins| > 0 {
      var init := ins[..|ins| - 1];
      InputsFitPrefix(l, ins, |ins| - 1);
      ApplyAllGroup(l, s, init, g);
      if Target(l, ins[|ins| - 1].element) != Some(g) {
        assert LastTarget(l, ins, g) == LastTarget(l, init, g);
        if LastTarget(l, init, g).Some? {
          assert ins[LastTarget(l, init, g).value] == init[LastTarget(l, init, g).value];
        }
      }
    }
  }

  /** After validating all inputs, each marked element's class reports the
      decision of the last input on it. */
  lemma {:induction false} ApplyAllElement(l: Layout, s: Screen, ins: seq<FieldInput>, e: nat)
    requires WellFormed(l) && Fits(l, s) && InputsFit(l, ins) && e < |l.groupOf|
    ensures ApplyAll(l, s, ins).invalid[e] ==
      (if LastMark(l, ins, e).Some? then Decision(ins[LastMark(l, ins, e).value]).Some? else s.invalid[e])
  {
    if |ins| > 0 {
      var init := ins[..|ins| - 1];
      InputsFitPrefix(l, ins, |ins| - 1);
      ApplyAllElement(l, s, init, e);
      if ins[|ins| - 1].element != e || !Marked(l, e) {
        assert LastMark(l, ins, e) == LastMark(l, init, e);
        if LastMark(l, init, e).Some? {
          assert ins[LastMark(l, init, e).value] == init[LastMark(l, init, e).value];
        }
      }
    }
  }

  /** Errors are cleared before they are recomputed, so validating the same
      inputs a second time leaves the page exactly as the first pass left it. */
  lemma ApplyAllIdempotent(l: Layout, s: Screen, ins: seq<FieldInput>)
    requires WellFormed(l) && Fits(l, s) && InputsFit(l, ins)
    ensures ApplyAll(l, ApplyAll(l, s, ins), ins) == ApplyAll(l, s, ins)
  {
    var once := ApplyAll(l, s, ins);
    var twice := ApplyAll(l, once, ins);
    forall g | 0 <= g < |l.hasMessage|
      ensures twice.message[g] == once.message[g] && twice.shown[g] == once.shown[g]
    {
      ApplyAllGroup(l, s, ins, g);
      ApplyAllGroup(l, once, ins, g);
    }
    forall e | 0 <= e < |l.groupOf|
      ensures twice.invalid[e] == once.invalid[e]
    {
      ApplyAllElement(l, s, ins, e);
      ApplyAllElement(l, once, ins, e);
    }
    assert twice.message == once.message;
    assert twice.shown == once.shown;
    assert twice.invalid == once.invalid;
  }

  /** No input is skipped: when the inputs write to distinct error elements,
      every one of them reports its own input's decision, invalid ones
      included, whichever came first. */
  lemma EveryInputReported(l: Layout, s: Screen, ins: seq<FieldInput>, i: nat)
    requires WellFormed(l) && Fits(l, s) && InputsFit(l, ins) && i < |ins|
    requires forall j, k :: 0 <= j < k < |ins| ==> Target(l, ins[j].element) != Target(l, ins[k].element)
    requires Target(l, ins[i].element).Some?
    ensures ApplyAll(l, s, ins).message[Target(l, ins[i].element).value] == ErrorText(Decision(ins[i]))
    ensures ApplyAll(l, s, ins).shown[Target(l, ins[i].element).value] <==> Decision(ins[i]).Some?
  {
    var g := Target(l, ins[i].element).value;
    ApplyAllGroup(l, s, ins, g);
    assert LastTarget(l, ins, g) == Some(i);
  }

  /** The error display of one form. */
  class ErrorBoard {
    const layout: Layout
    var message: seq<string>
    var shown: seq<bool>
    var invalid: seq<bool>

    function Current(): Screen
      reads this
    {
      Screen(message, shown, invalid)
    }

    predicate Valid()
      reads this
    {
      WellFormed(layout) && Fits(layout, Current())
    }

    constructor (l: Layout)
      requires WellFormed(l)
      ensures Valid() && layout == l && Current() == Blank(l)
    {
      layout := l;
      message := seq(|l.hasMessage|, _ => "");
      shown := seq(|l.hasMessage|, _ => false);
      invalid := seq(|l.groupOf|, _ => false);
    }

    /** `showError(element, msg)`. */
    method ShowError(e: nat, msg: string)
      requires Valid() && e < |layout.groupOf|
      modifies this
      ensures Valid() && Current() == Show(layout, old(Current()), e, msg)
    {
      var group := layout.groupOf[e];
      if group.None? {
        return;
      }
      if layout.hasMessage[group.value] {
        message := message[group.value := msg];
        shown := shown[group.value := true];
      }
      if layout.marks[e] {
        invalid := invalid[e := true];
      }
    }

    /** `clearError(element)`. */
    method ClearError(e: nat)
      requires Valid() && e < |layout.groupOf|
      modifies this
      ensures Valid() && Current() == Clear(layout, old(Current()), e)
    {
      var group := layout.groupOf[e];
      if group.None? {
        return;
      }
      if layout.hasMessage[group.value] {
        message := message[group.value := ""];
        shown := shown[group.value := false];
      }
      if layout.marks[e] {
        invalid := invalid[e := false];
      }
    }

    /** `validateField(input)`: the result says whether the input is valid. */
    method ValidateField(f: FieldInput) returns (valid: bool)
      requires Valid() && f.element < |layout.groupOf|
      modifies this
      ensures Valid() && Current() == Apply(layout, old(Current()), f)
      ensures valid <==> Decision(f) == None
    {
      ClearError(f.element);
      var d := Decide(f.id, f.value, f.required, f.checked);
      valid := true;
      if d.Some? {
        ShowError(f.element, d.value);
        valid := false;
      }
    }

    /** `inputs.map(input => validateField(input)).every(Boolean)`: every
        input is validated before the results are combined. */
    method ValidateAll(ins: seq<FieldInput>) returns (valid: bool)
      requires Valid() && InputsFit(layout, ins)
      modifies this
      ensures Valid() && Current() == ApplyAll(layout, old(Current()), ins)
      ensures valid <==> AllValid(ins)
    {
      ghost var start := Current();
      var results: seq<bool> := [];
      var i := 0;
      while i < |ins|
        invariant 0 <= i <= |ins| && |results| == i && Valid()
        invariant forall k :: 0 <= k < i ==> (results[k] <==> Decision(ins[k]) == None)
        invariant InputsFit(layout, ins[..i])
        invariant Current() == ApplyAll(layout, start, ins[..i])
      {
        ApplyAllStep(layout, start, ins, i);
        var v := ValidateField(ins[i]);
        VerdictsStep(ins, results, i, v);
        results := results + [v];
        i := i + 1;
      }
      assert ins[..i] == ins;
      valid := forall k :: 0 <= k < |results| ==> results[k];
    }
  }
}
