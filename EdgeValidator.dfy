/** The authoritative validator: the `validate-session-note` edge function.
    A request body is either unparseable or a JSON object whose four fields
    are arbitrary JSON values; the handler runs a fixed chain of seven rules
    and answers with the first one that fails. */
module EdgeValidator {
  import opened Types
  import opened Text

  const MinDuration := 15
  const MaxDuration := 120
  const MaxNotesLength := 500

  const MsgNotNumber := "Session duration must be a number"
  const MsgTooShort := "Session duration must be at least 15 minutes"
  const MsgTooLong := "Session duration cannot exceed 120 minutes (2 hours)"
  const MsgNameRequired := "Client name is required"
  const MsgDateRequired := "Session date is required"
  const MsgNotesRequired := "Quick notes are required"
  const MsgNotesTooLong := "Quick notes cannot exceed 500 characters"
  const MsgInvalidFormat := "Invalid request format"

  /** A field of the parsed body. A missing field reads as `Undefined`;
      `Compound` is any array or object. */
  datatype JsValue = Undefined | Null | Bool(b: bool) | Number(n: int) | Str(s: string) | Compound

  /** JavaScript truthiness, the test behind `!x`. */
  predicate Truthy(v: JsValue) {
    match v
    case Undefined => false
    case Null => false
    case Bool(b) => b
    case Number(n) => n != 0
    case Str(s) => s != ""
    case Compound => true
  }

  /** What `req.json()` produced. A body that is not JSON, or is JSON `null`
      (reading a property of it throws), is `Malformed`; any other JSON value
      reads as an object, whose absent properties are `Undefined`. */
  datatype Request =
    | Malformed
    | Body(client_name: JsValue, session_date: JsValue, quick_notes: JsValue, session_duration: JsValue)

  /** The HTTP status and the JSON payload `{valid, error?}`. */
  datatype Response = Response(status: int, body: ValidationResponse)

  /** `createResponse(data, status)`. */
  function CreateResponse(data: ValidationResponse, status: int): (r: Response)
    ensures r.status == status && r.body == data
  {
    Response(status, data)
  }

  function Reject(msg: string): (r: Response)
    ensures r.status == 200 && !r.body.valid && r.body.error == Some(msg)
  {
    CreateResponse(ValidationResponse(false, Some(msg)), 200)
  }

  /** The `catch` branch: the body could not be read, or a rule threw. */
  function BadRequest(): (r: Response)
    ensures r.status == 400 && !r.body.valid && r.body.error == Some(MsgInvalidFormat)
  {
    CreateResponse(ValidationResponse(false, Some(MsgInvalidFormat)), 400)
  }

  function Accept(): (r: Response)
    ensures r.status == 200 && r.body.valid && r.body.error.None?
  {
    CreateResponse(ValidationResponse(true, None), 200)
  }

  /** The handler of a POST request: the duration rules, then the other
      fields. Every answer is either 200 or 400, a 400 always carries
      "Invalid request format", and `error` is present exactly when `valid`
      is false. */
  function Validate(req: Request): (r: Response)
    ensures r.status == 200 || r.status == 400
    ensures r.status == 400 ==> r.body == ValidationResponse(false, Some(MsgInvalidFormat))
    ensures r.body.error.Some? <==> !r.body.valid
    ensures req.Malformed? ==> r.status == 400
  {
    match req
    case Malformed => BadRequest()
    case Body(name, date, notes, duration) =>
      if !duration.Number? then Reject(MsgNotNumber)
      else if duration.n < MinDuration then Reject(MsgTooShort)
      else if duration.n > MaxDuration then Reject(MsgTooLong)
      else ValidateFields(name, date, notes)
  }

  /** The "additional validations" of name, date and notes. `.trim()` on a
      truthy value that is not a string throws a TypeError, which the
      handler's `catch` turns into the 400 answer. */
  function ValidateFields(name: JsValue, date: JsValue, notes: JsValue): (r: Response) {
    if !Truthy(name) then Reject(MsgNameRequired)
    else if !name.Str? then BadRequest()
    else if |Trim(name.s)| == 0 then Reject(MsgNameRequired)
    else if !Truthy(date) then Reject(MsgDateRequired)
    else if !Truthy(notes) then Reject(MsgNotesRequired)
    else if !notes.Str? then BadRequest()
    else if |Trim(notes.s)| == 0 then Reject(MsgNotesRequired)
    else if |notes.s| > MaxNotesLength then Reject(MsgNotesTooLong)
    else Accept()
  }

  // ---------------------------------------------------------------------
  // The same rules as a table: a reference definition of the chain.

  datatype Rule =
    | DurationIsNumber | DurationAtLeastMin | DurationAtMostMax
    | ClientNameRequired | SessionDateRequired | QuickNotesRequired | QuickNotesMaxLength

  /** The order in which the handler tries the rules. */
  const Rules: seq<Rule> := [DurationIsNumber, DurationAtLeastMin, DurationAtMostMax,
                             ClientNameRequired, SessionDateRequired, QuickNotesRequired,
                             QuickNotesMaxLength]

  /** A rule passes, fails, or throws while it is being evaluated. */
  datatype Verdict = Pass | Fail | Throws

  function Message(rule: Rule): (msg: string) {
    match rule
    case DurationIsNumber => MsgNotNumber
    case DurationAtLeastMin => MsgTooShort
    case DurationAtMostMax => MsgTooLong
    case ClientNameRequired => MsgNameRequired
    case SessionDateRequired => MsgDateRequired
    case QuickNotesRequired => MsgNotesRequired
    case QuickNotesMaxLength => MsgNotesTooLong
  }

  /** A required text field: falsy fails, a truthy non-string throws on
      `.trim()`, a blank string fails. */
  function RequiredText(v: JsValue): (verdict: Verdict) {
    if !Truthy(v) then Fail
    else if !v.Str? then Throws
    else if IsBlank(v.s) then Fail
    else Pass
  }

  /** One rule on its own, for a body that reached it. */
  ghost function Check(rule: Rule, b: Request): (verdict: Verdict)
    requires b.Body?
  {
    match rule
    case DurationIsNumber => if b.session_duration.Number? then Pass else Fail
    case DurationAtLeastMin =>
      if b.session_duration.Number? && b.session_duration.n < MinDuration then Fail else Pass
    case DurationAtMostMax =>
      if b.session_duration.Number? && b.session_duration.n > MaxDuration then Fail else Pass
    case ClientNameRequired => RequiredText(b.client_name)
    case SessionDateRequired => if Truthy(b.session_date) then Pass else Fail
    case QuickNotesRequired => RequiredText(b.quick_notes)
    case QuickNotesMaxLength =>
      if b.quick_notes.Str? && |b.quick_notes.s| > MaxNotesLength then Fail else Pass
  }

  /** Try `rules` in order; the first that does not pass decides the answer. */
  ghost function FirstVerdict(rules: seq<Rule>, b: Request): (r: Response)
    requires b.Body?
  {
    if rules == [] then Accept()
    else match Check(rules[0], b)
      case Pass => FirstVerdict(rules[1..], b)
      case Fail => Reject(Message(rules[0]))
      case Throws => BadRequest()
  }

  /** One step of the table walk: a passing first rule hands over to the rest. */
  lemma PassingRuleHandsOver(rules: seq<Rule>, b: Request, k: nat)
    requires b.Body? && k < |rules| && Check(rules[k], b) == Pass
    ensures FirstVerdict(rules[k..], b) == FirstVerdict(rules[k + 1..], b)
  {
    assert rules[k..][1..] == rules[k + 1..];
  }

  /** The handler's chain is the rule table tried in order. */
  lemma ValidateFollowsRuleTable(b: Request)
    requires b.Body?
    ensures Validate(b) == FirstVerdict(Rules, b)
  {
    var d := b.session_duration;
    assert Rules[0..] == Rules;
    if !d.Number? { return; }
    PassingRuleHandsOver(Rules, b, 0);
    if d.n < MinDuration { return; }
    PassingRuleHandsOver(Rules, b, 1);
    if d.n > MaxDuration { return; }
    PassingRuleHandsOver(Rules, b, 2);
    FieldRulesFollowTable(b);
  }

  /** The name, date and notes part of the chain is the tail of the table. */
  lemma FieldRulesFollowTable(b: Request)
    requires b.Body?
    ensures ValidateFields(b.client_name, b.session_date, b.quick_notes) == FirstVerdict(Rules[3..], b)
  {
    var name, notes := b.client_name, b.quick_notes;
    if name.Str? { TrimEmptyIffBlank(name.s); }
    if RequiredText(name) != Pass { return; }
    PassingRuleHandsOver(Rules, b, 3);
    if !Truthy(b.session_date) { return; }
    PassingRuleHandsOver(Rules, b, 4);
    if notes.Str? { TrimEmptyIffBlank(notes.s); }
    if RequiredText(notes) != Pass { return; }
    PassingRuleHandsOver(Rules, b, 5);
    if |notes.s| > MaxNotesLength { return; }
    PassingRuleHandsOver(Rules, b, 6);
    assert Rules[7..] == [];
  }

  /** If every rule before position `i` passes and rule `i` fails, the
      answer is rule `i`'s message. */
  lemma {:induction false} FirstFailureDecides(rules: seq<Rule>, b: Request, i: nat)
    requires b.Body? && i < |rules|
    requires forall j :: 0 <= j < i ==> Check(rules[j], b) == Pass
    requires Check(rules[i], b) == Fail
    ensures FirstVerdict(rules, b) == Reject(Message(rules[i]))
  {
    if i > 0 {
      assert Check(rules[0], b) == Pass;
      FirstFailureDecides(rules[1..], b, i - 1);
    }
  }

  /** Rule order: when several rules fail, the earliest one in `Rules` is
      reported, together with status 200. */
  lemma EarliestFailingRuleReported(b: Request, i: nat)
    requires b.Body? && i < |Rules|
    requires forall j :: 0 <= j < i ==> Check(Rules[j], b) == Pass
    requires Check(Rules[i], b) == Fail
    ensures Validate(b) == Response(200, ValidationResponse(false, Some(Message(Rules[i]))))
  {
    ValidateFollowsRuleTable(b);
    FirstFailureDecides(Rules, b, i);
  }

  // ---------------------------------------------------------------------
  // Properties of the handler.

  /** Every field well-formed: the independent statement of acceptance. */
  ghost predicate Acceptable(req: Request) {
    && req.Body?
    && req.session_duration.Number?
    && MinDuration <= req.session_duration.n <= MaxDuration
    && req.client_name.Str? && !IsBlank(req.client_name.s)
    && Truthy(req.session_date)
    && req.quick_notes.Str? && !IsBlank(req.quick_notes.s)
    && |req.quick_notes.s| <= MaxNotesLength
  }

  /** The handler accepts exactly the well-formed bodies, and an accepted
      body gets status 200 and no error. */
  lemma AcceptedIffAcceptable(req: Request)
    ensures Validate(req).body.valid <==> Acceptable(req)
    ensures Validate(req).body.valid ==> Validate(req) == Response(200, ValidationResponse(true, None))
  {
    if req.Body? {
      if req.client_name.Str? { TrimEmptyIffBlank(req.client_name.s); }
      if req.quick_notes.Str? { TrimEmptyIffBlank(req.quick_notes.s); }
    }
  }

  /** A duration under 15 is rejected with the minimum message whatever the
      other fields hold (an empty name included). */
  lemma DurationBelowMinimum(name: JsValue, date: JsValue, notes: JsValue, d: int)
    requires d < MinDuration
    ensures Validate(Body(name, date, notes, Number(d)))
         == Response(200, ValidationResponse(false, Some(MsgTooShort)))
  {
  }

  /** A duration over 120 is rejected with the maximum message whatever the
      other fields hold. */
  lemma DurationAboveMaximum(name: JsValue, date: JsValue, notes: JsValue, d: int)
    requires d > MaxDuration
    ensures Validate(Body(name, date, notes, Number(d)))
         == Response(200, ValidationResponse(false, Some(MsgTooLong)))
  {
  }

  /** A duration that is not a number is the first thing reported. */
  lemma DurationNotNumber(name: JsValue, date: JsValue, notes: JsValue, d: JsValue)
    requires !d.Number?
    ensures Validate(Body(name, date, notes, d))
         == Response(200, ValidationResponse(false, Some(MsgNotNumber)))
  {
  }

  /** A name or notes value made only of whitespace gets the "required"
      message, not the length message and not the 400 answer. */
  lemma BlankTextIsRequiredError(name: string, date: JsValue, notes: string, d: int)
    requires MinDuration <= d <= MaxDuration
    requires IsBlank(name) || (!IsBlank(name) && Truthy(date) && IsBlank(notes))
    ensures Validate(Body(Str(name), date, Str(notes), Number(d))).body.error
         == Some(if IsBlank(name) then MsgNameRequired else MsgNotesRequired)
  {
    TrimEmptyIffBlank(name);
    TrimEmptyIffBlank(notes);
  }

  /** The notes limit is on the untrimmed length: with every other field
      valid, 500 characters pass and 501 fail with the length message. */
  lemma NotesLengthBoundary(name: string, date: JsValue, notes: string, d: int)
    requires MinDuration <= d <= MaxDuration
    requires !IsBlank(name) && Truthy(date) && !IsBlank(notes)
    requires |notes| == MaxNotesLength || |notes| == MaxNotesLength + 1
    ensures |notes| == MaxNotesLength ==>
      Validate(Body(Str(name), date, Str(notes), Number(d))) == Response(200, ValidationResponse(true, None))
    ensures |notes| == MaxNotesLength + 1 ==>
      Validate(Body(Str(name), date, Str(notes), Number(d))) == Response(200, ValidationResponse(false, Some(MsgNotesTooLong)))
  {
    TrimEmptyIffBlank(name);
    TrimEmptyIffBlank(notes);
  }

  /** A 400 answer comes only from an unreadable body or from a name or
      notes field that is truthy but not a string; every rule rejection is
      a 200. */
  lemma BadRequestOnlyForShapeErrors(req: Request)
    ensures Validate(req).status == 400 <==>
      req.Malformed? ||
      (&& req.session_duration.Number?
       && MinDuration <= req.session_duration.n <= MaxDuration
       && (RequiredText(req.client_name) == Throws
           || (RequiredText(req.client_name) == Pass && Truthy(req.session_date)
               && RequiredText(req.quick_notes) == Throws)))
  {
    if req.Body? {
      if req.client_name.Str? { TrimEmptyIffBlank(req.client_name.s); }
      if req.quick_notes.Str? { TrimEmptyIffBlank(req.quick_notes.s); }
    }
  }
}
