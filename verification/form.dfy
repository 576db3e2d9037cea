/** The booking form: its initial state, field edits, validation into a map of
    per-field messages, and the submit step that stamps id and creation time. */
module BookingForm {
  import opened Wrappers
  import opened Types
  import opened Rooms
  import opened Strings
  import opened Store
  import opened NoticeBoard

  /** The editable fields of the form (`formData`). */
  datatype FormData = FormData(
    bookedBy: string, email: string, purpose: string,
    startTime: string, endTime: string, participants: int, notes: string)

  /** Keys of the error map. Start and end time share the key `time`. */
  const NameKey := "bookedBy"
  const EmailKey := "email"
  const PurposeKey := "purpose"
  const TimeKey := "time"
  const ParticipantsKey := "participants"

  const NameRequired := "Name is required"
  const EmailRequired := "Email is required"
  const EmailInvalid := "Please enter a valid email"
  const PurposeRequired := "Purpose is required"
  const TimeOrder := "End time must be after start time"

  /** The five message keys are different strings. */
  lemma ErrorKeysDistinct()
    ensures NameKey != EmailKey && NameKey != PurposeKey && NameKey != TimeKey && NameKey != ParticipantsKey
    ensures EmailKey != PurposeKey && EmailKey != TimeKey && EmailKey != ParticipantsKey
    ensures PurposeKey != TimeKey && PurposeKey != ParticipantsKey
    ensures TimeKey != ParticipantsKey
  {
    assert NameKey[0] == 'b' && EmailKey[0] == 'e' && PurposeKey[0] == 'p' && TimeKey[0] == 't';
    assert PurposeKey[1] == 'u' && ParticipantsKey[1] == 'a';
  }

  function ParticipantsRange(capacity: int): string {
    "Participants must be between 1 and " + IntToString(capacity)
  }

  /** No whitespace at positions `lo` up to (not including) `hi`. */
  predicate NoSpaceIn(s: string, lo: int, hi: int)
    requires 0 <= lo <= hi <= |s|
  {
    forall k :: lo <= k < hi ==> !IsWhitespace(s[k])
  }

  /** `s[i..end]` is a match of `\S+@\S+\.\S+` with the `@` at `at` and the `.` at `dot`. */
  ghost predicate EmailMatchAt(s: string, i: int, at: int, dot: int, end: int) {
    && 0 <= i < at && at + 1 < dot && dot + 1 < end <= |s|
    && NoSpaceIn(s, i, at) && s[at] == '@'
    && NoSpaceIn(s, at + 1, dot) && s[dot] == '.'
    && NoSpaceIn(s, dot + 1, end)
  }

  /** The regular expression `/\S+@\S+\.\S+/` finds a match somewhere in `s`
      (it is not anchored, so text around the match is allowed). */
  ghost predicate MatchesEmailPattern(s: string) {
    exists i, at, dot, end :: EmailMatchAt(s, i, at, dot, end)
  }

  /** An `@` at `at` with a non-space character before it, then a `.` at
      `dot` with only non-space between them and a non-space character after it. */
  predicate EmailAnchors(s: string, at: int, dot: int)
    requires 0 < at && at + 1 < dot < |s| - 1
  {
    && s[at] == '@' && s[dot] == '.'
    && !IsWhitespace(s[at - 1]) && NoSpaceIn(s, at + 1, dot) && !IsWhitespace(s[dot + 1])
  }

  /** A decidable form of the same test: some `@` and `.` satisfy `EmailAnchors`. */
  predicate LooksLikeEmail(s: string) {
    exists at, dot | 0 < at && at + 1 < dot < |s| - 1 :: EmailAnchors(s, at, dot)
  }

  /** The decidable test accepts exactly the strings the regular expression matches. */
  lemma EmailCheckIsPattern(s: string)
    ensures LooksLikeEmail(s) <==> MatchesEmailPattern(s)
  {
    if LooksLikeEmail(s) {
      EmailCheckSound(s);
    }
    if MatchesEmailPattern(s) {
      var i, at, dot, end :| EmailMatchAt(s, i, at, dot, end);
      EmailCheckComplete(s, i, at, dot, end);
    }
  }

  /** An `@` and a `.` found by the decidable test give a match of the
      regular expression of the shortest shape, `x@y.z`-like around them. */
  lemma EmailCheckSound(s: string)
    requires LooksLikeEmail(s)
    ensures MatchesEmailPattern(s)
  {
    var at, dot :| 0 < at && at + 1 < dot < |s| - 1 && EmailAnchors(s, at, dot);
    assert EmailMatchAt(s, at - 1, at, dot, dot + 2);
  }

  /** Any match of the regular expression has the `@` and `.` the decidable test looks for. */
  lemma EmailCheckComplete(s: string, i: int, at: int, dot: int, end: int)
    requires EmailMatchAt(s, i, at, dot, end)
    ensures LooksLikeEmail(s)
  {
    assert EmailAnchors(s, at, dot);
  }

  /** `validateForm`: one message per failing rule, keyed by field. */
  function Validate(form: FormData, room: Room): (errors: map<string, string>)
    ensures errors.Keys <= {NameKey, EmailKey, PurposeKey, TimeKey, ParticipantsKey}
    ensures NameKey in errors <==> IsBlank(form.bookedBy)
    ensures EmailKey in errors <==> IsBlank(form.email) || !LooksLikeEmail(form.email)
    ensures PurposeKey in errors <==> IsBlank(form.purpose)
    ensures TimeKey in errors <==> LessEq(form.endTime, form.startTime)
    ensures ParticipantsKey in errors <==> form.participants < 1 || room.capacity < form.participants
    ensures NameKey in errors ==> errors[NameKey] == NameRequired
    ensures EmailKey in errors ==>
      errors[EmailKey] == if IsBlank(form.email) then EmailRequired else EmailInvalid
    ensures PurposeKey in errors ==> errors[PurposeKey] == PurposeRequired
    ensures TimeKey in errors ==> errors[TimeKey] == TimeOrder
    ensures ParticipantsKey in errors ==> errors[ParticipantsKey] == ParticipantsRange(room.capacity)
  {
    NotLessIsLessEq(form.startTime, form.endTime);
    MessagesRules(IsBlank(form.bookedBy),
                  IsBlank(form.email) || !LooksLikeEmail(form.email),
                  if IsBlank(form.email) then EmailRequired else EmailInvalid,
                  IsBlank(form.purpose),
                  !Less(form.startTime, form.endTime),
                  form.participants < 1 || form.participants > room.capacity,
                  ParticipantsRange(room.capacity));
    Messages(IsBlank(form.bookedBy),
             IsBlank(form.email) || !LooksLikeEmail(form.email),
             if IsBlank(form.email) then EmailRequired else EmailInvalid,
             IsBlank(form.purpose),
             !Less(form.startTime, form.endTime),
             form.participants < 1 || form.participants > room.capacity,
             ParticipantsRange(room.capacity))
  }

  /** The message map `validateForm` builds from the outcome of its five
      rules, in order: name, email, purpose, time, participants. */
  function Messages(nameFails: bool, emailFails: bool, emailMessage: string, purposeFails: bool,
                    timeFails: bool, participantsFails: bool, participantsMessage: string): map<string, string>
  {
    var afterName := Note(map[], nameFails, NameKey, NameRequired);
    var afterEmail := Note(afterName, emailFails, EmailKey, emailMessage);
    var afterPurpose := Note(afterEmail, purposeFails, PurposeKey, PurposeRequired);
    var afterTime := Note(afterPurpose, timeFails, TimeKey, TimeOrder);
    Note(afterTime, participantsFails, ParticipantsKey, participantsMessage)
  }

  /** `newErrors.key = message` when the rule fails. */
  function Note(errors: map<string, string>, failing: bool, key: string, message: string): map<string, string> {
    if failing then errors[key := message] else errors
  }

  /** What one step leaves under one key: its own message when it fails on
      that key, the earlier entry otherwise. */
  lemma NoteAt(errors: map<string, string>, failing: bool, key: string, message: string, k: string)
    ensures k in Note(errors, failing, key, message) <==> k in errors || (failing && k == key)
    ensures k in Note(errors, failing, key, message) ==>
      Note(errors, failing, key, message)[k] == if failing && k == key then message else errors[k]
  {
  }

  /** What the five steps leave under one key. */
  lemma MessagesAt(nameFails: bool, emailFails: bool, emailMessage: string, purposeFails: bool,
                   timeFails: bool, participantsFails: bool, participantsMessage: string, k: string)
    ensures var errors := Messages(nameFails, emailFails, emailMessage, purposeFails,
                                   timeFails, participantsFails, participantsMessage);
      && (k in errors <==>
          (nameFails && k == NameKey) || (emailFails && k == EmailKey) || (purposeFails && k == PurposeKey)
          || (timeFails && k == TimeKey) || (participantsFails && k == ParticipantsKey))
      && (k in errors ==>
          errors[k] == (if participantsFails && k == ParticipantsKey then participantsMessage
                        else if timeFails && k == TimeKey then TimeOrder
                        else if purposeFails && k == PurposeKey then PurposeRequired
                        else if emailFails && k == EmailKey then emailMessage
                        else NameRequired))
  {
    var afterName := Note(map[], nameFails, NameKey, NameRequired);
    var afterEmail := Note(afterName, emailFails, EmailKey, emailMessage);
    var afterPurpose := Note(afterEmail, purposeFails, PurposeKey, PurposeRequired);
    var afterTime := Note(afterPurpose, timeFails, TimeKey, TimeOrder);
    NoteAt(map[], nameFails, NameKey, NameRequired, k);
    NoteAt(afterName, emailFails, EmailKey, emailMessage, k);
    NoteAt(afterEmail, purposeFails, PurposeKey, PurposeRequired, k);
    NoteAt(afterPurpose, timeFails, TimeKey, TimeOrder, k);
    NoteAt(afterTime, participantsFails, ParticipantsKey, participantsMessage, k);
  }

  /** Each rule has its own key: a key is present exactly when its rule
      fails, with that rule's message, and no other key appears. */
  lemma MessagesRules(nameFails: bool, emailFails: bool, emailMessage: string, purposeFails: bool,
                      timeFails: bool, participantsFails: bool, participantsMessage: string)
    ensures var errors := Messages(nameFails, emailFails, emailMessage, purposeFails,
                                   timeFails, participantsFails, participantsMessage);
      && (NameKey in errors <==> nameFails)
      && (EmailKey in errors <==> emailFails)
      && (PurposeKey in errors <==> purposeFails)
      && (TimeKey in errors <==> timeFails)
      && (ParticipantsKey in errors <==> participantsFails)
      && errors.Keys <= {NameKey, EmailKey, PurposeKey, TimeKey, ParticipantsKey}
      && (NameKey in errors ==> errors[NameKey] == NameRequired)
      && (EmailKey in errors ==> errors[EmailKey] == emailMessage)
      && (PurposeKey in errors ==> errors[PurposeKey] == PurposeRequired)
      && (TimeKey in errors ==> errors[TimeKey] == TimeOrder)
      && (ParticipantsKey in errors ==> errors[ParticipantsKey] == participantsMessage)
  {
    var errors := Messages(nameFails, emailFails, emailMessage, purposeFails,
                           timeFails, participantsFails, participantsMessage);
    ErrorKeysDistinct();
    MessagesAt(nameFails, emailFails, emailMessage, purposeFails, timeFails, participantsFails, participantsMessage, NameKey);
    MessagesAt(nameFails, emailFails, emailMessage, purposeFails, timeFails, participantsFails, participantsMessage, EmailKey);
    MessagesAt(nameFails, emailFails, emailMessage, purposeFails, timeFails, participantsFails, participantsMessage, PurposeKey);
    MessagesAt(nameFails, emailFails, emailMessage, purposeFails, timeFails, participantsFails, participantsMessage, TimeKey);
    MessagesAt(nameFails, emailFails, emailMessage, purposeFails, timeFails, participantsFails, participantsMessage, ParticipantsKey);
    forall k | k in errors
      ensures k in {NameKey, EmailKey, PurposeKey, TimeKey, ParticipantsKey}
    {
      MessagesAt(nameFails, emailFails, emailMessage, purposeFails, timeFails, participantsFails, participantsMessage, k);
    }
  }

  /** The form's rules stated directly: what a valid booking request looks like. */
  ghost predicate RulesHold(form: FormData, room: Room) {
    && !IsBlank(form.bookedBy)
    && !IsBlank(form.email) && MatchesEmailPattern(form.email)
    && !IsBlank(form.purpose)
    && Less(form.startTime, form.endTime)
    && 1 <= form.participants <= room.capacity
  }

  /** The form is valid (the error map is empty) exactly when every rule holds. */
  lemma ValidIffRulesHold(form: FormData, room: Room)
    ensures Validate(form, room) == map[] <==> RulesHold(form, room)
  {
    var errors := Validate(form, room);
    NotLessIsLessEq(form.startTime, form.endTime);
    EmailCheckIsPattern(form.email);
    if RulesHold(form, room) {
      assert errors.Keys == {};
    }
    if errors == map[] {
      assert NameKey !in errors && EmailKey !in errors && PurposeKey !in errors;
      assert TimeKey !in errors && ParticipantsKey !in errors;
    }
  }

  /** JavaScript's `a || b` on strings: `a` unless it is empty. */
  function OrElse(a: string, b: string): (r: string)
    ensures a != "" ==> r == a
    ensures a == "" ==> r == b
  {
    if a != "" then a else b
  }

  /** `handleSubmit`: nothing when validation fails; otherwise the form's
      fields, the existing booking's id and creation time when it has them,
      and otherwise `booking_` followed by a fresh suffix and the current time. */
  function Submit(form: FormData, room: Room, existing: Option<BookingDetails>,
                  freshSuffix: string, now: string): (r: Option<BookingDetails>)
    ensures r.Some? <==> RulesHold(form, room)
    ensures r.Some? ==>
      && r.value.bookedBy == form.bookedBy && r.value.email == form.email
      && r.value.purpose == form.purpose && r.value.startTime == form.startTime
      && r.value.endTime == form.endTime && r.value.participants == form.participants
      && r.value.notes == Some(form.notes)
    ensures r.Some? ==> r.value.id != ""
    ensures r.Some? && existing.Some? && existing.value.id != "" ==> r.value.id == existing.value.id
    ensures r.Some? && (existing.None? || existing.value.id == "") ==> r.value.id == "booking_" + freshSuffix
    ensures r.Some? && existing.Some? && existing.value.createdAt != "" ==> r.value.createdAt == existing.value.createdAt
    ensures r.Some? && (existing.None? || existing.value.createdAt == "") ==> r.value.createdAt == now
  {
    ValidIffRulesHold(form, room);
    if Validate(form, room) != map[] then None
    else
      var id := OrElse(if existing.Some? then existing.value.id else "", "booking_" + freshSuffix);
      var createdAt := OrElse(if existing.Some? then existing.value.createdAt else "", now);
      Some(BookingDetails(id, form.bookedBy, form.email, form.purpose, form.startTime, form.endTime,
                          form.participants, Some(form.notes), createdAt))
  }

  /** The form's initial state: the existing booking's values where they are
      set, otherwise empty text, 09:00 to 10:00 and one participant. */
  function InitialForm(existing: Option<BookingDetails>): (f: FormData)
    ensures existing.None? ==> f == FormData("", "", "", "09:00", "10:00", 1, "")
    ensures existing.Some? ==>
      && f.bookedBy == existing.value.bookedBy && f.email == existing.value.email
      && f.purpose == existing.value.purpose
      && f.startTime == (if existing.value.startTime != "" then existing.value.startTime else "09:00")
      && f.endTime == (if existing.value.endTime != "" then existing.value.endTime else "10:00")
      && f.participants == (if existing.value.participants != 0 then existing.value.participants else 1)
      && f.notes == existing.value.notes.GetOr("")
  {
    match existing
    case None => FormData("", "", "", "09:00", "10:00", 1, "")
    case Some(b) =>
      FormData(OrElse(b.bookedBy, ""), OrElse(b.email, ""), OrElse(b.purpose, ""),
               OrElse(b.startTime, "09:00"), OrElse(b.endTime, "10:00"),
               if b.participants != 0 then b.participants else 1,
               OrElse(b.notes.GetOr(""), ""))
  }

  /** A new form for a room with a place in it fails only on the three
      required text fields: the default times and head count are acceptable. */
  lemma NewFormErrors(room: Room)
    requires room.capacity >= 1
    ensures Validate(InitialForm(None), room).Keys == {NameKey, EmailKey, PurposeKey}
  {
    var f := InitialForm(None);
    assert Less(f.startTime, f.endTime) by {
      assert f.startTime[0] == '0' && f.endTime[0] == '1';
    }
    NotLessIsLessEq(f.startTime, f.endTime);
  }

  /** Opening a valid existing booking and submitting it unchanged gives back
      the same booking: same id, same creation time, same fields. */
  lemma ResubmitUnchanged(b: BookingDetails, room: Room, freshSuffix: string, now: string)
    requires b.id != "" && b.createdAt != "" && b.notes.Some?
    requires b.startTime != "" && b.endTime != "" && b.participants != 0
    requires RulesHold(InitialForm(Some(b)), room)
    ensures Submit(InitialForm(Some(b)), room, Some(b), freshSuffix, now) == Some(b)
  {
    var r := Submit(InitialForm(Some(b)), room, Some(b), freshSuffix, now);
    assert r.value.notes == b.notes;
    assert r.value.id == b.id && r.value.createdAt == b.createdAt;
    assert r.value.startTime == b.startTime && r.value.endTime == b.endTime;
  }

  /** A booking the form accepts, stored for a catalog room on a date that is
      today or later, appears on the notice board. */
  lemma SubmittedBookingIsListed(data: BookingData, rooms: seq<Room>, date: string, today: string,
                                 form: FormData, room: Room, existing: Option<BookingDetails>,
                                 freshSuffix: string, now: string)
    requires FindRoom(rooms, room.id) == Some(room)
    requires OnOrAfter(date, today)
    requires Submit(form, room, existing, freshSuffix, now).Some?
    ensures var b := Submit(form, room, existing, freshSuffix, now).value;
      Listed(SubmitBooking(data, date, Some(room.id), b), rooms, today, AllFloors, Upcoming(date, room.id, b, room))
  {
  }

  /** The form's fields, as `handleInputChange` names them. */
  datatype Field = BookedBy | Email | Purpose | StartTime | EndTime | Participants | Notes

  function FieldKey(f: Field): string {
    match f
    case BookedBy => "bookedBy"
    case Email => "email"
    case Purpose => "purpose"
    case StartTime => "startTime"
    case EndTime => "endTime"
    case Participants => "participants"
    case Notes => "notes"
  }

  /** Field keys are distinct, and none of them is the shared `time` key. */
  lemma FieldKeysDistinct(f: Field, g: Field)
    ensures FieldKey(f) == FieldKey(g) <==> f == g
    ensures FieldKey(f) != TimeKey
  {
    assert FieldKey(f)[0] != FieldKey(g)[0] || FieldKey(f)[1] != FieldKey(g)[1] || f == g;
  }

  /** A value typed into a field: text, or the head count. */
  datatype Input = Text(text: string) | Count(count: int)

  predicate Fits(f: Field, v: Input) {
    f == Participants <==> v.Count?
  }

  function Get(form: FormData, f: Field): (v: Input)
    ensures Fits(f, v)
  {
    match f
    case BookedBy => Text(form.bookedBy)
    case Email => Text(form.email)
    case Purpose => Text(form.purpose)
    case StartTime => Text(form.startTime)
    case EndTime => Text(form.endTime)
    case Participants => Count(form.participants)
    case Notes => Text(form.notes)
  }

  /** `parseInt(value) || 1`: the head count typed in, or one when it does not
      parse or is zero. */
  function ParticipantsInput(parsed: Option<int>): (n: int)
    ensures n != 0
    ensures parsed.Some? && parsed.value != 0 ==> n == parsed.value
    ensures parsed.None? || parsed.value == 0 ==> n == 1
  {
    if parsed.Some? && parsed.value != 0 then parsed.value else 1
  }

  /** The form together with the messages currently attached to it. */
  datatype FormState = FormState(form: FormData, errors: map<string, string>)

  /** An error is shown for a key when its message is present and non-empty. */
  predicate Shown(errors: map<string, string>, key: string) {
    key in errors && errors[key] != ""
  }

  /** `handleInputChange`: store the value in its field and blank that field's
      message if one is shown. */
  function InputChange(s: FormState, f: Field, v: Input): (r: FormState)
    requires Fits(f, v)
    ensures Get(r.form, f) == v
    ensures forall g :: g != f ==> Get(r.form, g) == Get(s.form, g)
    ensures r.errors.Keys == s.errors.Keys
    ensures !Shown(r.errors, FieldKey(f))
    ensures forall k :: k in s.errors && k != FieldKey(f) ==> r.errors[k] == s.errors[k]
    ensures Shown(s.errors, TimeKey) ==> Shown(r.errors, TimeKey)
  {
    FieldKeysDistinct(f, f);
    var form := match f
      case BookedBy => s.form.(bookedBy := v.text)
      case Email => s.form.(email := v.text)
      case Purpose => s.form.(purpose := v.text)
      case StartTime => s.form.(startTime := v.text)
      case EndTime => s.form.(endTime := v.text)
      case Participants => s.form.(participants := v.count)
      case Notes => s.form.(notes := v.text);
    var key := FieldKey(f);
    var errors := if Shown(s.errors, key) then s.errors[key := ""] else s.errors;
    FormState(form, errors)
  }
}
