/** The five submit handlers (index.tsx lines 396-487, 540-606, 638-701,
    715-779 and 853-929): validate, disable the button, send the form to the
    sheet endpoint, and then either show the success view or alert and
    restore the button. The network is abstract: a submission leaves a
    request in the log and waits in `pending` until its response is handed
    to `Resolve`. */
module Submission {
  import opened Wrappers
  import opened Text
  import opened ErrorDisplay
  import opened CompositeRules

  datatype FormKind = Contact | Student | Booth | Sponsorship | Speaker

  /** One `FormData` entry. */
  datatype Entry = Entry(name: string, value: string)

  /** `URLSearchParams` for the sheet, `FormData` for the contact form's
      second endpoint. */
  datatype Encoding = UrlEncoded | Multipart

  datatype Request = Request(to: Endpoint, encoding: Encoding, entries: seq<Entry>)

  /** The parsed JSON body of a sheet response: its `result` and `error`
      members when present, or the reason it would not parse. */
  datatype Body = Json(result: Option<string>, error: Option<string>) | NotJson(reason: string)

  /** What `fetch` gives back: a rejection with its message, or a response
      with its status and body. */
  datatype Response = Rejected(reason: string) | Answered(status: nat, body: Body)

  datatype Outcome = Delivered | Failed(message: string)

  const SUBMITTING_LABEL := "Submitting..."
  const DECK_FILE := "QELE2026-Sponsorship-Deck.pdf"
  const BASIN_ENDPOINT := "https://usebasin.com/f/8b6d8aeec167"

  /** The `scriptURL` of each handler: the form's sheet web app. */
  function SheetEndpoint(k: FormKind): string {
    match k
    case Contact => "https://script.google.com/macros/s/AKfycbxUS76iFHL00oqCytiDjvpPfY9wONwwttdI00R6nhhoAkyED2ogZviUb3yXXRDAqAs7tg/exec"
    case Student => "https://script.google.com/macros/s/AKfycbwHIEFWVu-5cIqrbW8pV5MSobkrTEq05kxi7aTcIwkfAGpC6ulVoo3tlrq16y3qoZXs/exec"
    case Booth => "https://script.google.com/macros/s/AKfycbxW3MBK-rPB1L2rOKMQ9mqkeGagcrnDcFpT7cZYvEFy4WzNxxnU2ZzLnMAQGwvSZZaQ/exec"
    case Sponsorship => "https://script.google.com/macros/s/AKfycbwq3S7GQikOlmmWhh5d3aIkC8uTWtIG6UnXcaPzmwdlZ8m5b3kIRKgafYW9zQV1rB-u/exec"
    case Speaker => "https://script.google.com/macros/s/AKfycbzaHqJGQqN1b3_EXy2TPKf4B2ACcVEwo-OmxribSVw0UkpTvR1kAnsbWOPW39myS9cN/exec"
  }

  /** The label a failed submission puts back on the button. */
  function ButtonLabel(k: FormKind): string {
    match k
    case Contact => "Submit Inquiry & Get Deck"
    case Student => "Register Now"
    case Booth => "Submit Registration"
    case Sponsorship => "Submit Inquiry"
    case Speaker => "Submit Application"
  }

  function AlertPrefix(k: FormKind): string {
    match k
    case Contact =>
      "Sorry, there was a problem with your inquiry. Please check your network connection and try again. Error: "
    case Student =>
      "Sorry, there was a problem with your registration. Please check your network connection and try again. If the problem persists, contact support. Error: "
    case Booth =>
      "Sorry, there was a problem with your registration. Please check your network connection and try again. If the problem persists, contact support. Error: "
    case Sponsorship =>
      "Sorry, there was a problem with your inquiry. Please check your network and try again. Error: "
    case Speaker =>
      "Sorry, there was a problem with your application. Please check your network connection and try again. If the problem persists, contact support. Error: "
  }

  function StatusPrefix(k: FormKind): string {
    if k == Contact then "Google Sheets submission failed. Status: " else "Submission failed. Status: "
  }

  function DefaultScriptError(k: FormKind): string {
    if k == Contact then "The script returned an unknown error. Please check the sheet name and headers."
    else "The script returned an unknown error."
  }

  /** `response.ok`: a status in the range 200-299. */
  predicate Ok(status: nat) {
    200 <= status <= 299
  }

  /** `result.error || fallback`: an absent or empty error gives the fallback. */
  function ErrorOr(error: Option<string>, fallback: string): string
  {
    if error.Some? && error.value != "" then error.value else fallback
  }

  /** How a handler reads the sheet's response. The body is parsed only for
      an ok status, and only `result == 'success'` counts as delivered. */
  function Classify(k: FormKind, r: Response): Outcome {
    match r
    case Rejected(reason) => Failed(reason)
    case Answered(status, body) =>
      if !Ok(status) then Failed(StatusPrefix(k) + NatToString(status))
      else match body
        case NotJson(reason) => Failed(reason)
        case Json(result, error) =>
          if result == Some("success") then Delivered
          else Failed(ErrorOr(error, DefaultScriptError(k)))
  }

  /** A submission is delivered exactly when the response is ok and its
      `result` is 'success'. */
  lemma DeliveredIff(k: FormKind, r: Response)
    ensures Classify(k, r) == Delivered <==>
      r.Answered? && Ok(r.status) && r.body.Json? && r.body.result == Some("success")
  {
  }

  /** A status outside 200-299 fails with the form's status prefix followed
      by the status in decimal, whatever the body holds. */
  lemma StatusFailure(k: FormKind, status: nat, body: Body)
    requires !Ok(status)
    ensures var o := Classify(k, Answered(status, body));
      o.Failed? && |o.message| > |StatusPrefix(k)| &&
      o.message[..|StatusPrefix(k)|] == StatusPrefix(k) &&
      AllDigits(o.message[|StatusPrefix(k)|..]) &&
      DecimalValue(o.message[|StatusPrefix(k)|..]) == status
  {
    var m := StatusPrefix(k) + NatToString(status);
    assert m[|StatusPrefix(k)|..] == NatToString(status);
    DecimalOfNatToString(status);
  }

  /** An ok response that is not a success reports the script's error, or
      the form's default text when the script gave none. */
  lemma ScriptFailure(k: FormKind, status: nat, result: Option<string>, error: Option<string>)
    requires Ok(status) && result != Some("success")
    ensures Classify(k, Answered(status, Json(result, error))) ==
      Failed(if error.Some? && error.value != "" then error.value else DefaultScriptError(k))
  {
  }

  /** Every failure carries a non-empty message unless the runtime itself
      gave an empty one. */
  lemma FailureMessageNonEmpty(k: FormKind, r: Response)
    requires Classify(k, r).Failed?
    requires r.Rejected? ==> r.reason != ""
    requires r.Answered? && r.body.NotJson? ==> r.body.reason != ""
    ensures Classify(k, r).message != ""
  {
  }

  /** `FormData.delete(name)`: every entry under `name` goes, the rest stay
      in order. */
  function RemoveField(entries: seq<Entry>, name: string): (r: seq<Entry>)
    ensures |r| <= |entries|
    ensures forall x :: x in r <==> x in entries && x.name != name
  {
    if entries == [] then []
    else
      var rest := RemoveField(entries[1..], name);
      assert entries == [entries[0]] + entries[1..];
      if entries[0].name == name then rest else [entries[0]] + rest
  }

  /** Deleting distributes over concatenation, so the order of the other
      entries is kept. */
  lemma {:induction false} RemoveFieldAppend(a: seq<Entry>, b: seq<Entry>, name: string)
    ensures RemoveField(a + b, name) == RemoveField(a, name) + RemoveField(b, name)
  {
    if a == [] {
      assert a + b == b;
    } else {
      assert (a + b)[0] == a[0];
      assert (a + b)[1..] == a[1..] + b;
      RemoveFieldAppend(a[1..], b, name);
    }
  }

  /** Deleting a name the data does not hold changes nothing. */
  lemma {:induction false} RemoveAbsentField(entries: seq<Entry>, name: string)
    requires forall i :: 0 <= i < |entries| ==> entries[i].name != name
    ensures RemoveField(entries, name) == entries
  {
    if entries != [] {
      RemoveAbsentField(entries[1..], name);
    }
  }

  /** The entries sent to the sheet: the speaker form drops its file. */
  function SheetPayload(k: FormKind, formData: seq<Entry>): seq<Entry> {
    if k == Speaker then RemoveField(formData, "headshot") else formData
  }

  /** What the handlers read besides the required inputs: the contact form's
      interest select (absent when the page has none), the student form's
      interest checkboxes and the speaker form's extra groups. */
  datatype Extras = Extras(interest: Option<string>, interests: InterestGroup, speaker: SpeakerGroups)

  /** The contact form downloads the deck when the interest is 'exhibiting',
      whatever the other fields hold. */
  predicate DeckDownload(k: FormKind, x: Extras) {
    k == Contact && x.interest == Some("exhibiting")
  }

  /** The form-specific checks after the required inputs: the contact form's
      download step always passes. */
  predicate CustomValid(k: FormKind, x: Extras) {
    match k
    case Student => InterestVerdict(x.interests) == None
    case Speaker => SpeakerValid(x.speaker)
    case _ => true
  }

  /** The page after the form-specific checks. */
  function CustomEffect(l: Layout, s: Screen, k: FormKind, x: Extras): (r: Screen)
    requires WellFormed(l) && Fits(l, s) && InterestFits(l, x.interests) && SpeakerFits(l, x.speaker)
    ensures Fits(l, r)
  {
    match k
    case Student => InterestEffect(l, s, x.interests)
    case Speaker => SpeakerEffect(l, s, x.speaker)
    case _ => s
  }

  /** A submission goes out exactly when every required input and every
      form-specific check passes; the download step never blocks it. */
  predicate Proceeds(k: FormKind, ins: seq<FieldInput>, x: Extras) {
    AllValid(ins) && CustomValid(k, x)
  }

  lemma ContactProceedsIffInputsValid(ins: seq<FieldInput>, x: Extras)
    ensures Proceeds(Contact, ins, x) <==> forall i :: 0 <= i < |ins| ==> Decision(ins[i]) == None
  {
  }

  /** Where a request goes: `Sheet` is the form's sheet web app at
      `SheetEndpoint(kind)`, `Basin` the contact form's second endpoint at
      `BASIN_ENDPOINT`. */
  datatype Endpoint = Sheet | Basin

  /** The button's text: the form's own label or the in-progress one. */
  datatype Label = Original | InProgress

  /** The text each caption stands for. */
  function LabelText(k: FormKind, b: Label): string {
    if b == InProgress then SUBMITTING_LABEL else ButtonLabel(k)
  }

  /** "Submitting..." is no form's own label, so the caption shows whether a
      submission is in progress. */
  lemma CaptionsDistinct(k: FormKind)
    ensures LabelText(k, Original) != LabelText(k, InProgress)
  {
    assert |SUBMITTING_LABEL| == 13;
    match k
    case Contact =>
    case Student =>
    case Booth =>
    case Sponsorship =>
    case Speaker =>
  }

  /** The alert a failed submission raises. */
  function AlertText(k: FormKind, error: string): string {
    AlertPrefix(k) + error
  }

  /** One form with its button, its success view and its traffic. `requests`
      logs every request sent, in order; `pending` holds the entries of each
      submission whose sheet response has not arrived yet; `downloads` logs
      the deck downloads and `alerts` the text of each alert. */
  class FormController {
    const kind: FormKind
    const board: ErrorBoard
    const hasButton: bool
    var buttonDisabled: bool
    var caption: Label
    var formShown: bool
    var successShown: bool
    var requests: seq<Request>
    var pending: seq<seq<Entry>>
    var downloads: seq<string>
    var alerts: seq<string>

    predicate Valid()
      reads this, board
    {
      board.Valid()
    }

    constructor (k: FormKind, b: ErrorBoard, button: bool)
      requires b.Valid()
      ensures Valid() && kind == k && board == b && hasButton == button
      ensures !buttonDisabled && caption == Original && formShown && !successShown
      ensures requests == [] && pending == [] && downloads == [] && alerts == []
    {
      kind := k;
      board := b;
      hasButton := button;
      buttonDisabled := false;
      caption := Original;
      formShown := true;
      successShown := false;
      requests := [];
      pending := [];
      downloads := [];
      alerts := [];
    }

    /** The checks of the submit handler: every required input, then the
        form-specific ones; the contact form's download step runs here. */
    method RunChecks(ins: seq<FieldInput>, x: Extras) returns (ok: bool)
      requires Valid() && InputsFit(board.layout, ins)
      requires InterestFits(board.layout, x.interests) && SpeakerFits(board.layout, x.speaker)
      modifies this`downloads, board
      ensures Valid()
      ensures board.Current() ==
        CustomEffect(board.layout, ApplyAll(board.layout, old(board.Current()), ins), kind, x)
      ensures ok <==> Proceeds(kind, ins, x)
      ensures downloads == old(downloads) + (if DeckDownload(kind, x) then [DECK_FILE] else [])
    {
      var formValid := board.ValidateAll(ins);
      var customValid := true;
      match kind {
        case Contact =>
          if x.interest == Some("exhibiting") {
            downloads := downloads + [DECK_FILE];
          }
        case Student =>
          customValid := ValidateInterests(board, x.interests);
        case Speaker =>
          customValid := ValidateSpeaker(board, x.speaker);
        case Booth =>
        case Sponsorship =>
      }
      ok := formValid && customValid;
    }

    /** The submit handler up to `await fetch`. Only when every check passes
        is the button disabled and the sheet request sent; otherwise nothing
        but the error display changes. */
    method Submit(ins: seq<FieldInput>, x: Extras, formData: seq<Entry>) returns (sent: bool)
      requires Valid() && InputsFit(board.layout, ins)
      requires InterestFits(board.layout, x.interests) && SpeakerFits(board.layout, x.speaker)
      modifies this, board
      ensures Valid()
      ensures board.Current() ==
        CustomEffect(board.layout, ApplyAll(board.layout, old(board.Current()), ins), kind, x)
      ensures sent <==> Proceeds(kind, ins, x)
      ensures downloads == old(downloads) + (if DeckDownload(kind, x) then [DECK_FILE] else [])
      ensures sent ==> requests == old(requests) + [Request(Sheet, UrlEncoded, SheetPayload(kind, formData))]
      ensures sent ==> pending == old(pending) + [formData]
      ensures sent && hasButton ==> buttonDisabled && caption == InProgress
      ensures !sent || !hasButton ==> buttonDisabled == old(buttonDisabled) && caption == old(caption)
      ensures !sent ==> requests == old(requests) && pending == old(pending)
      ensures formShown == old(formShown) && successShown == old(successShown) && alerts == old(alerts)
    {
      sent := RunChecks(ins, x);
      ghost var screen := board.Current();
      if sent {
        Dispatch(formData);
        assert board.Current() == screen && board.Valid();
      }
    }

    /** Disabling the button and sending the sheet request. */
    method Dispatch(formData: seq<Entry>)
      modifies this`buttonDisabled, this`caption, this`requests, this`pending
      ensures requests == old(requests) + [Request(Sheet, UrlEncoded, SheetPayload(kind, formData))]
      ensures pending == old(pending) + [formData]
      ensures hasButton ==> buttonDisabled && caption == InProgress
      ensures !hasButton ==> buttonDisabled == old(buttonDisabled) && caption == old(caption)
    {
      if hasButton {
        buttonDisabled := true;
        caption := InProgress;
      }
      requests := requests + [Request(Sheet, UrlEncoded, SheetPayload(kind, formData))];
      pending := pending + [formData];
    }

    /** The handler after `await fetch` for the `i`-th outstanding
        submission: success hides the form and shows the success view (the
        contact form then also posts its entries to the second endpoint and
        ignores how that ends); failure alerts and gives the button back. */
    method Resolve(i: nat, r: Response) returns (o: Outcome)
      requires Valid() && i < |pending|
      modifies this
      ensures Valid() && o == Classify(kind, r)
      ensures pending == old(pending[..i] + pending[i + 1..])
      ensures o == Delivered ==> !formShown && successShown && alerts == old(alerts)
      ensures o == Delivered ==> buttonDisabled == old(buttonDisabled) && caption == old(caption)
      ensures o == Delivered && kind == Contact ==>
        requests == old(requests) + [Request(Basin, Multipart, old(pending[i]))]
      ensures o == Delivered && kind != Contact ==> requests == old(requests)
      ensures o.Failed? ==> alerts == old(alerts) + [AlertText(kind, o.message)]
      ensures o.Failed? ==> formShown == old(formShown) && successShown == old(successShown)
      ensures o.Failed? ==> requests == old(requests)
      ensures o.Failed? && hasButton ==> !buttonDisabled && caption == Original
      ensures o.Failed? && !hasButton ==> buttonDisabled == old(buttonDisabled) && caption == old(caption)
      ensures downloads == old(downloads)
    {
      var entries := pending[i];
      pending := pending[..i] + pending[i + 1..];
      o := Classify(kind, r);
      if o == Delivered {
        Succeed(entries);
      } else {
        Fail(o.message);
      }
    }

    /** The success branch: the contact form's second request, then the
        success view in place of the form. */
    method Succeed(entries: seq<Entry>)
      modifies this`requests, this`formShown, this`successShown
      ensures !formShown && successShown
      ensures kind == Contact ==> requests == old(requests) + [Request(Basin, Multipart, entries)]
      ensures kind != Contact ==> requests == old(requests)
    {
      if kind == Contact {
        requests := requests + [Request(Basin, Multipart, entries)];
      }
      formShown := false;
      successShown := true;
    }

    /** The failure branch: the alert, and the button given back. */
    method Fail(message: string)
      modifies this`alerts, this`buttonDisabled, this`caption
      ensures alerts == old(alerts) + [AlertText(kind, message)]
      ensures hasButton ==> !buttonDisabled && caption == Original
      ensures !hasButton ==> buttonDisabled == old(buttonDisabled) && caption == old(caption)
    {
      alerts := alerts + [AlertText(kind, message)];
      if hasButton {
        buttonDisabled := false;
        caption := Original;
      }
    }
  }
}
