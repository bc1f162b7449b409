/**
 * `parse_event_data`: one calendar event record, in which any key may be
 * missing, becomes one flat row. Parsing of date strings and the regular
 * expressions are parameters (`Env`).
 */
module Normalize {
  import opened Wrappers
  import opened Text
  import opened Clock
  import opened Extract

  // ---------------------------------------------------------------- input

  /** `start` / `end`: a date-time string, or a date string for an all-day event. */
  datatype EventTime = EventTime(dateTime: Option<string>, date: Option<string>)

  datatype Attendee = Attendee(email: Option<string>, displayName: Option<string>, responseStatus: Option<string>)

  /** `organizer` / `creator`. */
  datatype Person = Person(email: Option<string>, displayName: Option<string>)

  datatype EntryPoint = EntryPoint(entryPointType: Option<string>, uri: Option<string>)

  datatype ConferenceSolution = ConferenceSolution(name: Option<string>)

  datatype ConferenceData = ConferenceData(
    conferenceSolution: Option<ConferenceSolution>,
    entryPoints: Option<seq<EntryPoint>>)

  datatype Attachment = Attachment(title: Option<string>)

  /**
   * An event as the calendar service returns it; `None` is a missing key.
   * `reminders` holds the Python rendering of the reminders dictionary.
   */
  datatype RawEvent = RawEvent(
    id: Option<string>,
    summary: Option<string>,
    description: Option<string>,
    location: Option<string>,
    start: Option<EventTime>,
    end: Option<EventTime>,
    attendees: Option<seq<Attendee>>,
    organizer: Option<Person>,
    creator: Option<Person>,
    conferenceData: Option<ConferenceData>,
    recurringEventId: Option<string>,
    attachments: Option<seq<Attachment>>,
    colorId: Option<string>,
    transparency: Option<string>,
    visibility: Option<string>,
    status: Option<string>,
    created: Option<string>,
    updated: Option<string>,
    reminders: Option<string>,
    htmlLink: Option<string>)

  /**
   * What the row builder gets from outside: `re.findall`, `datetime.fromisoformat`
   * and `datetime.strptime(s, '%Y-%m-%d')` (a date read at naive midnight);
   * a parser that raises is `None`.
   */
  datatype Env = Env(
    findall: Matcher,
    fromIsoFormat: string -> Option<DateTime>,
    strptimeDate: string -> Option<Date>)

  // ---------------------------------------------------------------- output

  /** The flat row, one field per spreadsheet column, in column order. */
  datatype Row = Row(
    eventId: string,
    summary: string,
    description: string,
    location: string,
    startDate: Option<Date>,
    startTime: Option<TimeOfDay>,
    endDate: Option<Date>,
    endTime: Option<TimeOfDay>,
    allDay: bool,
    durationHours: Option<real>,
    status: string,
    visibility: string,
    organizerEmail: string,
    organizerName: string,
    creatorEmail: string,
    creatorName: string,
    attendeeEmails: string,
    attendeeNames: string,
    attendeeStatuses: string,
    attendeeCount: nat,
    allExtractedEmails: string,
    extractedPhoneNumbers: string,
    recurringEventId: string,
    isRecurring: bool,
    htmlLink: string,
    conferenceType: string,
    meetingLinks: string,
    created: string,
    updated: string,
    reminders: string,
    attachments: string,
    colorId: string,
    transparency: string)

  /** The exception that escapes the row builder: subtracting an aware and a naive date-time. */
  datatype ParseError = NaiveAwareSubtraction(start: DateTime, end: DateTime)

  // ---------------------------------------------------------------- text

  /** `filter(None, xs)` on strings: drops the empty ones. */
  function NonEmpty(xs: seq<string>): seq<string>
  {
    if xs == [] then []
    else (if xs[0] == "" then [] else [xs[0]]) + NonEmpty(xs[1..])
  }

  /** Summary, description and location, the missing or empty ones left out, one space between. */
  function CombinedText(e: RawEvent): string
  {
    Join(" ", NonEmpty([e.summary.GetOr(""), e.description.GetOr(""), e.location.GetOr("")]))
  }

  /** Two texts with one space between, or just one of them when the other is empty. */
  function Glue(a: string, b: string): string
  {
    if a == "" then b else if b == "" then a else a + " " + b
  }

  /**
   * The combined text has no stray separator: it is the three fields glued
   * pairwise, where an empty or missing field adds neither text nor space.
   */
  lemma CombinedTextGlued(e: RawEvent)
    ensures CombinedText(e) == Glue(Glue(e.summary.GetOr(""), e.description.GetOr("")), e.location.GetOr(""))
  {
    var s, d, l := e.summary.GetOr(""), e.description.GetOr(""), e.location.GetOr("");
    var xs := [s, d, l];
    assert xs[1..] == [d, l] && xs[1..][1..] == [l] && xs[1..][1..][1..] == [];
    assert NonEmpty([l]) == (if l == "" then [] else [l]);
    assert NonEmpty([d, l]) == (if d == "" then [] else [d]) + NonEmpty([l]);
    assert NonEmpty(xs) == (if s == "" then [] else [s]) + NonEmpty([d, l]);
    if s != "" && d != "" && l != "" {
      assert NonEmpty(xs) == [s, d, l];
      assert [s, d, l][1..] == [d, l] && [d, l][1..] == [l];
      assert Join(" ", [d, l]) == d + " " + l;
      assert Join(" ", [s, d, l]) == s + " " + (d + " " + l);
      assert Glue(Glue(s, d), l) == (s + " " + d) + " " + l;
    } else if s != "" && d != "" {
      assert NonEmpty(xs) == [s, d];
      assert [s, d][1..] == [d];
      assert Join(" ", [s, d]) == s + " " + d;
    } else if s != "" && l != "" {
      assert NonEmpty(xs) == [s, l];
      assert [s, l][1..] == [l];
      assert Join(" ", [s, l]) == s + " " + l;
    } else if d != "" && l != "" {
      assert NonEmpty(xs) == [d, l];
      assert [d, l][1..] == [l];
      assert Join(" ", [d, l]) == d + " " + l;
    }
  }

  /** The combined text is empty exactly when all three fields are missing or empty. */
  lemma CombinedTextEmpty(e: RawEvent)
    ensures CombinedText(e) == "" <==>
            e.summary.GetOr("") == "" && e.description.GetOr("") == "" && e.location.GetOr("") == ""
  {
    CombinedTextGlued(e);
  }

  // ---------------------------------------------------------------- attendees

  function AttendeeEmails(atts: seq<Attendee>): seq<string>
  {
    seq(|atts|, i requires 0 <= i < |atts| => atts[i].email.GetOr(""))
  }

  function AttendeeNames(atts: seq<Attendee>): seq<string>
  {
    seq(|atts|, i requires 0 <= i < |atts| => atts[i].displayName.GetOr(""))
  }

  function AttendeeStatuses(atts: seq<Attendee>): seq<string>
  {
    seq(|atts|, i requires 0 <= i < |atts| => atts[i].responseStatus.GetOr(""))
  }

  /** `list(set(attendee_emails + text_emails))`. */
  function EmailUnion(e: RawEvent, env: Env): (r: seq<string>)
    ensures Distinct(r)
    ensures |r| <= |e.attendees.GetOr([])| + |ExtractEmails(Some(CombinedText(e)), env.findall)|
  {
    Dedup(AttendeeEmails(e.attendees.GetOr([])) + ExtractEmails(Some(CombinedText(e)), env.findall))
  }

  // ---------------------------------------------------------------- time

  /** `t.get('dateTime', t.get('date', ''))`, with a missing `start`/`end` read as `{}`. */
  function WhenString(t: Option<EventTime>): (r: string)
    ensures t.None? ==> r == ""
    ensures t.Some? && t.value.dateTime.Some? ==> r == t.value.dateTime.value
    ensures t.Some? && t.value.dateTime.None? ==> r == t.value.date.GetOr("")
  {
    match t
    case None => ""
    case Some(EventTime(dateTime, date)) => dateTime.GetOr(date.GetOr(""))
  }

  /** The parsed bounds and the all-day flag after the `try` block. */
  datatype Bounds = Bounds(start: Option<DateTime>, end: Option<DateTime>, allDay: bool)

  /**
   * A start string with a `T` in it is read, with the end string, as ISO
   * date-times after every `Z` becomes `+00:00`; otherwise both are read as
   * dates at naive midnight and the event is all-day. Any failure leaves no
   * bounds and clears the all-day flag.
   */
  function ParseBounds(startText: string, endText: string, env: Env): (b: Bounds)
    ensures b.start.Some? <==> b.end.Some?
    ensures b.allDay <==> 'T' !in startText && b.start.Some?
    ensures 'T' in startText ==>
              (b.start.Some? <==> env.fromIsoFormat(ReplaceZ(startText)).Some? && env.fromIsoFormat(ReplaceZ(endText)).Some?)
    ensures 'T' !in startText ==>
              (b.start.Some? <==> env.strptimeDate(startText).Some? && env.strptimeDate(endText).Some?)
    ensures b.allDay ==> b.start.value.utcOffset == None && b.end.value.utcOffset == None
    ensures b.allDay ==> b.start.value.time == Midnight && b.end.value.time == Midnight
    ensures 'T' in startText && b.start.Some? ==>
              b.start == env.fromIsoFormat(ReplaceZ(startText)) && b.end == env.fromIsoFormat(ReplaceZ(endText))
    ensures 'T' !in startText && b.start.Some? ==>
              b.start == Some(DateTime(env.strptimeDate(startText).value, Midnight, None)) &&
              b.end == Some(DateTime(env.strptimeDate(endText).value, Midnight, None))
  {
    if 'T' in startText then
      match (env.fromIsoFormat(ReplaceZ(startText)), env.fromIsoFormat(ReplaceZ(endText)))
      case (Some(s), Some(t)) => Bounds(Some(s), Some(t), false)
      case _ => Bounds(None, None, false)
    else
      match (env.strptimeDate(startText), env.strptimeDate(endText))
      case (Some(s), Some(t)) => Bounds(Some(DateTime(s, Midnight, None)), Some(DateTime(t, Midnight, None)), true)
      case _ => Bounds(None, None, false)
  }

  /**
   * The duration in hours, only when both bounds parsed, and never clamped;
   * subtracting an aware from a naive date-time is an error that escapes.
   */
  function Duration(b: Bounds): (r: Result<Option<real>, ParseError>)
    requires b.start.Some? <==> b.end.Some?
    ensures r.Failure? <==> b.start.Some? && !Comparable(b.start.value, b.end.value)
    ensures r.Success? ==> (r.value.Some? <==> b.start.Some?)
    ensures r.Success? && r.value.Some? ==>
              (r.value.value < 0.0 <==> Micros(b.end.value) < Micros(b.start.value))
  {
    match b.start
    case None => Success(None)
    case Some(s) =>
      var t := b.end.value;
      if Comparable(s, t) then Success(Some(HoursBetween(s, t))) else Failure(NaiveAwareSubtraction(s, t))
  }

  function DateOf(dt: Option<DateTime>): Option<Date>
  {
    match dt
    case None => None
    case Some(d) => Some(d.date)
  }

  function TimeOf(dt: Option<DateTime>, allDay: bool): Option<TimeOfDay>
  {
    match dt
    case Some(d) => if allDay then None else Some(d.time)
    case None => None
  }

  // ---------------------------------------------------------------- conference

  predicate IsVideo(ep: EntryPoint)
  {
    ep.entryPointType == Some("video")
  }

  /** The `uri` of every video entry point, in order (`''` for a missing one). */
  function MeetingLinks(eps: seq<EntryPoint>): seq<string>
  {
    if eps == [] then []
    else
      MeetingLinks(eps[..|eps| - 1])
      + (if IsVideo(eps[|eps| - 1]) then [eps[|eps| - 1].uri.GetOr("")] else [])
  }

  function VideoCount(eps: seq<EntryPoint>): nat
  {
    if eps == [] then 0
    else VideoCount(eps[..|eps| - 1]) + (if IsVideo(eps[|eps| - 1]) then 1 else 0)
  }

  /** Meeting links of consecutive entry points are the links of each part, in order. */
  lemma {:induction false} MeetingLinksAppend(a: seq<EntryPoint>, b: seq<EntryPoint>)
    ensures MeetingLinks(a + b) == MeetingLinks(a) + MeetingLinks(b)
    decreases |b|
  {
    if b == [] {
      assert a + b == a;
    } else {
      var b' := b[..|b| - 1];
      assert (a + b)[..|a + b| - 1] == a + b';
      MeetingLinksAppend(a, b');
    }
  }

  /**
   * One link per video entry point, and a string is a link exactly when some
   * video entry point has it as its uri.
   */
  lemma {:induction false} MeetingLinksExactly(eps: seq<EntryPoint>)
    ensures |MeetingLinks(eps)| == VideoCount(eps)
    ensures forall x :: x in MeetingLinks(eps) <==>
              exists i :: 0 <= i < |eps| && IsVideo(eps[i]) && eps[i].uri.GetOr("") == x
  {
    if eps != [] {
      var n := |eps| - 1;
      var init := eps[..n];
      MeetingLinksExactly(init);
      forall x ensures x in MeetingLinks(eps) <==>
                       exists i :: 0 <= i < |eps| && IsVideo(eps[i]) && eps[i].uri.GetOr("") == x
      {
        if x in MeetingLinks(init) {
          var i :| 0 <= i < |init| && IsVideo(init[i]) && init[i].uri.GetOr("") == x;
          assert eps[i] == init[i];
        }
        if exists i :: 0 <= i < |eps| && IsVideo(eps[i]) && eps[i].uri.GetOr("") == x {
          var i :| 0 <= i < |eps| && IsVideo(eps[i]) && eps[i].uri.GetOr("") == x;
          if i < n {
            assert init[i] == eps[i];
          }
        }
      }
    }
  }

  function AttachmentTitles(atts: seq<Attachment>): seq<string>
  {
    seq(|atts|, i requires 0 <= i < |atts| => atts[i].title.GetOr(""))
  }

  // ---------------------------------------------------------------- the row

  function PersonEmail(p: Option<Person>): string
  {
    match p
    case None => ""
    case Some(q) => q.email.GetOr("")
  }

  function PersonName(p: Option<Person>): string
  {
    match p
    case None => ""
    case Some(q) => q.displayName.GetOr("")
  }

  /** The row built for one event, or the error that escapes while building it. */
  function ParseEvent(e: RawEvent, env: Env): Result<Row, ParseError>
  {
    var bounds := EventBounds(e, env);
    match Duration(bounds)
    case Failure(err) => Failure(err)
    case Success(duration) => Success(BuildRow(e, env, bounds, duration))
  }

  /** The parsed `start` and `end` of an event. */
  function EventBounds(e: RawEvent, env: Env): Bounds
  {
    ParseBounds(WhenString(e.start), WhenString(e.end), env)
  }

  /** The row, once the bounds and the duration are known. */
  function BuildRow(e: RawEvent, env: Env, bounds: Bounds, duration: Option<real>): Row
  {
    var text := CombinedText(e);
    var atts := e.attendees.GetOr([]);
    var phones := PhoneNumbers(Some(text), env.findall);
    var conference := e.conferenceData.GetOr(ConferenceData(None, None));
      Row(
        eventId := e.id.GetOr(""),
        summary := e.summary.GetOr(""),
        description := e.description.GetOr(""),
        location := e.location.GetOr(""),
        startDate := DateOf(bounds.start),
        startTime := TimeOf(bounds.start, bounds.allDay),
        endDate := DateOf(bounds.end),
        endTime := TimeOf(bounds.end, bounds.allDay),
        allDay := bounds.allDay,
        durationHours := duration,
        status := e.status.GetOr(""),
        visibility := e.visibility.GetOr("default"),
        organizerEmail := PersonEmail(e.organizer),
        organizerName := PersonName(e.organizer),
        creatorEmail := PersonEmail(e.creator),
        creatorName := PersonName(e.creator),
        attendeeEmails := Join(ListSep, AttendeeEmails(atts)),
        attendeeNames := Join(ListSep, AttendeeNames(atts)),
        attendeeStatuses := Join(ListSep, AttendeeStatuses(atts)),
        attendeeCount := |atts|,
        allExtractedEmails := Join(ListSep, EmailUnion(e, env)),
        extractedPhoneNumbers := Join(ListSep, phones),
        recurringEventId := e.recurringEventId.GetOr(""),
        isRecurring := e.recurringEventId.Some?,
        htmlLink := e.htmlLink.GetOr(""),
        conferenceType := conference.conferenceSolution.GetOr(ConferenceSolution(None)).name.GetOr(""),
        meetingLinks := Join(ListSep, MeetingLinks(conference.entryPoints.GetOr([]))),
        created := e.created.GetOr(""),
        updated := e.updated.GetOr(""),
        reminders := e.reminders.GetOr("{}"),
        attachments := Join(ListSep, AttachmentTitles(e.attachments.GetOr([]))),
        colorId := e.colorId.GetOr(""),
        transparency := e.transparency.GetOr("opaque"))
  }

  // ---------------------------------------------------------------- row properties

  /**
   * Time fields of a row: both bounds or neither; no time of day on an all-day
   * row; a duration exactly when the bounds parsed; a start with a `T` is never
   * all-day, and a failed parse is never all-day.
   */
  lemma RowTimeFields(e: RawEvent, env: Env)
    ensures ParseEvent(e, env).Success? ==>
            var row := ParseEvent(e, env).value;
            && (row.startDate.Some? <==> row.endDate.Some?)
            && (row.durationHours.Some? <==> row.startDate.Some?)
            && (row.allDay ==> row.startDate.Some? && row.startTime == None && row.endTime == None)
            && (!row.allDay && row.startDate.Some? ==> row.startTime.Some? && row.endTime.Some?)
            && (row.startDate.None? ==> row.startTime == None && row.endTime == None)
            && ('T' in WhenString(e.start) ==> !row.allDay)
            && row.allDay == EventBounds(e, env).allDay
            && row.startDate == DateOf(EventBounds(e, env).start)
            && row.endDate == DateOf(EventBounds(e, env).end)
            && row.startTime == TimeOf(EventBounds(e, env).start, row.allDay)
            && row.endTime == TimeOf(EventBounds(e, env).end, row.allDay)
  {
  }

  /** An all-day row lasts a whole number of days: 24 hours per day between the dates. */
  lemma AllDayWholeDays(e: RawEvent, env: Env)
    requires ParseEvent(e, env).Success?
    requires ParseEvent(e, env).value.allDay
    ensures var row := ParseEvent(e, env).value;
            row.startDate.Some? && row.endDate.Some? &&
            row.durationHours == Some(24.0 * (Ordinal(row.endDate.value) - Ordinal(row.startDate.value)) as real)
  {
    var b := EventBounds(e, env);
    var row := ParseEvent(e, env).value;
    assert b.allDay && row == BuildRow(e, env, b, Duration(b).value);
    assert b.start.value == DateTime(b.start.value.date, Midnight, None);
    assert b.end.value == DateTime(b.end.value.date, Midnight, None);
    WholeDays(b.start.value.date, b.end.value.date);
  }

  /**
   * The duration is the exact difference of the parsed bounds in hours, negative
   * when the end precedes the start: it is never clamped.
   */
  lemma DurationNotClamped(e: RawEvent, env: Env)
    ensures ParseEvent(e, env).Success? && ParseEvent(e, env).value.durationHours.Some? ==>
            var b := EventBounds(e, env);
            var h := ParseEvent(e, env).value.durationHours.value;
            && b.start.Some? && b.end.Some?
            && h == HoursBetween(b.start.value, b.end.value)
            && (h < 0.0 <==> Micros(b.end.value) < Micros(b.start.value))
  {
  }

  /**
   * Building a row fails exactly when the start has a `T`, both strings parse,
   * and one parsed value carries a UTC offset while the other does not: the
   * subtraction raises outside the `try`. A date-only start never fails.
   */
  lemma ParseEventFailsExactly(e: RawEvent, env: Env)
    ensures var s, t := WhenString(e.start), WhenString(e.end);
            ParseEvent(e, env).Failure? <==>
              'T' in s &&
              env.fromIsoFormat(ReplaceZ(s)).Some? && env.fromIsoFormat(ReplaceZ(t)).Some? &&
              (env.fromIsoFormat(ReplaceZ(s)).value.utcOffset.Some? != env.fromIsoFormat(ReplaceZ(t)).value.utcOffset.Some?)
  {
  }

  /**
   * The attendee columns: the count is the number of attendees; no attendee
   * gives three empty strings; and each joined column splits back into one
   * entry per attendee, `''` for a missing sub-field, provided no entry itself
   * contains the `"; "` separator.
   */
  lemma AttendeeColumns(e: RawEvent, env: Env)
    ensures ParseEvent(e, env).Success? ==>
            var row, atts := ParseEvent(e, env).value, e.attendees.GetOr([]);
            && row.attendeeCount == |atts|
            && (atts == [] ==> row.attendeeEmails == "" && row.attendeeNames == "" && row.attendeeStatuses == "")
            && (atts != [] && (forall i :: 0 <= i < |atts| ==> !HasListSep(atts[i].email.GetOr(""))) ==>
                  |SplitList(row.attendeeEmails)| == row.attendeeCount &&
                  forall i :: 0 <= i < |atts| ==> SplitList(row.attendeeEmails)[i] == atts[i].email.GetOr(""))
            && (atts != [] && (forall i :: 0 <= i < |atts| ==> !HasListSep(atts[i].displayName.GetOr(""))) ==>
                  |SplitList(row.attendeeNames)| == row.attendeeCount &&
                  forall i :: 0 <= i < |atts| ==> SplitList(row.attendeeNames)[i] == atts[i].displayName.GetOr(""))
            && (atts != [] && (forall i :: 0 <= i < |atts| ==> !HasListSep(atts[i].responseStatus.GetOr(""))) ==>
                  |SplitList(row.attendeeStatuses)| == row.attendeeCount &&
                  forall i :: 0 <= i < |atts| ==> SplitList(row.attendeeStatuses)[i] == atts[i].responseStatus.GetOr(""))
  {
    var atts := e.attendees.GetOr([]);
    if ParseEvent(e, env).Success? && atts != [] {
      var b := EventBounds(e, env);
      var row := ParseEvent(e, env).value;
      assert row == BuildRow(e, env, b, Duration(b).value);
      assert row.attendeeEmails == Join(ListSep, AttendeeEmails(atts));
      assert row.attendeeNames == Join(ListSep, AttendeeNames(atts));
      assert row.attendeeStatuses == Join(ListSep, AttendeeStatuses(atts));
      if forall i :: 0 <= i < |atts| ==> !HasListSep(atts[i].email.GetOr("")) {
        SplitJoin(AttendeeEmails(atts));
      }
      if forall i :: 0 <= i < |atts| ==> !HasListSep(atts[i].displayName.GetOr("")) {
        SplitJoin(AttendeeNames(atts));
      }
      if forall i :: 0 <= i < |atts| ==> !HasListSep(atts[i].responseStatus.GetOr("")) {
        SplitJoin(AttendeeStatuses(atts));
      }
    }
  }

  /**
   * The emails column lists every attendee email and every email found in the
   * text, nothing else, each once; case is kept as it is, and an attendee
   * without an email contributes `''`.
   */
  lemma EmailUnionContents(e: RawEvent, env: Env)
    ensures var atts, found, all := e.attendees.GetOr([]), ExtractEmails(Some(CombinedText(e)), env.findall), EmailUnion(e, env);
            && Distinct(all)
            && (forall i :: 0 <= i < |atts| ==> atts[i].email.GetOr("") in all)
            && (forall x :: x in found ==> x in all)
            && (forall x :: x in all ==> x in found || exists i :: 0 <= i < |atts| && atts[i].email.GetOr("") == x)
            && ((exists i :: 0 <= i < |atts| && atts[i].email == None) ==> "" in all)
  {
    var atts := e.attendees.GetOr([]);
    assert forall i :: 0 <= i < |atts| ==> AttendeeEmails(atts)[i] == atts[i].email.GetOr("");
  }

  /** Meeting links are the video entry points' uris, in order; the other fields fall back to their defaults. */
  lemma RowDefaults(e: RawEvent, env: Env)
    ensures ParseEvent(e, env).Success? ==>
            var row := ParseEvent(e, env).value;
            && (e.visibility == None ==> row.visibility == "default")
            && (e.transparency == None ==> row.transparency == "opaque")
            && (e.reminders == None ==> row.reminders == "{}")
            && (row.isRecurring <==> e.recurringEventId.Some?)
            && (e.conferenceData == None ==> row.meetingLinks == "" && row.conferenceType == "")
            && (e.conferenceData.Some? && e.conferenceData.value.entryPoints.Some? ==>
                  row.meetingLinks == Join(ListSep, MeetingLinks(e.conferenceData.value.entryPoints.value)))
  {
  }

  /** An event with nothing but an id becomes a row of defaults, without error. */
  lemma OnlyIdEvent(id: string, env: Env)
    requires env.strptimeDate("") == None
    ensures var e := RawEvent(Some(id), None, None, None, None, None, None, None, None, None,
                              None, None, None, None, None, None, None, None, None, None);
            var r := ParseEvent(e, env);
            && r.Success?
            && r.value.eventId == id
            && r.value.summary == "" && r.value.description == "" && r.value.location == ""
            && r.value.startDate == None && r.value.startTime == None
            && r.value.endDate == None && r.value.endTime == None
            && !r.value.allDay && r.value.durationHours == None
            && r.value.attendeeCount == 0 && r.value.attendeeEmails == ""
            && r.value.allExtractedEmails == "" && r.value.extractedPhoneNumbers == ""
            && r.value.visibility == "default" && r.value.transparency == "opaque"
            && r.value.reminders == "{}" && !r.value.isRecurring && r.value.meetingLinks == ""
  {
    var e := RawEvent(Some(id), None, None, None, None, None, None, None, None, None,
                      None, None, None, None, None, None, None, None, None, None);
    assert ["", "", ""][1..] == ["", ""] && ["", ""][1..] == [""] && [""][1..] == [];
    assert NonEmpty(["", "", ""]) == [];
    assert CombinedText(e) == "";
    assert EmailUnion(e, env) == [];
  }

  /** An all-day event from 2024-03-01 to 2024-03-02 lasts 24 hours and has no times of day. */
  lemma AllDayExample(env: Env)
    requires env.strptimeDate("2024-03-01") == Some(Date(2024, 3, 1))
    requires env.strptimeDate("2024-03-02") == Some(Date(2024, 3, 2))
    ensures var e := RawEvent(None, None, None, None,
                              Some(EventTime(None, Some("2024-03-01"))), Some(EventTime(None, Some("2024-03-02"))),
                              None, None, None, None, None, None, None, None, None, None, None, None, None, None);
            var r := ParseEvent(e, env);
            && r.Success? && r.value.allDay
            && r.value.startDate == Some(Date(2024, 3, 1)) && r.value.endDate == Some(Date(2024, 3, 2))
            && r.value.startTime == None && r.value.durationHours == Some(24.0)
  {
    assert 'T' !in "2024-03-01";
  }

  /**
   * A timed event whose start and end carry a `Z` and read as 09:00 and 10:30
   * UTC on one day lasts an hour and a half and is not all-day.
   */
  lemma ZuluTimesExample(startText: string, endText: string, day: Date, env: Env)
    requires 'T' in startText && 'Z' !in startText && 'Z' !in endText
    requires env.fromIsoFormat(startText + "+00:00") == Some(DateTime(day, TimeOfDay(9, 0, 0, 0), Some(0)))
    requires env.fromIsoFormat(endText + "+00:00") == Some(DateTime(day, TimeOfDay(10, 30, 0, 0), Some(0)))
    ensures var e := RawEvent(None, None, None, None,
                              Some(EventTime(Some(startText + "Z"), None)),
                              Some(EventTime(Some(endText + "Z"), None)),
                              None, None, None, None, None, None, None, None, None, None, None, None, None, None);
            var r := ParseEvent(e, env);
            && r.Success? && !r.value.allDay
            && r.value.startDate == Some(day)
            && r.value.startTime == Some(TimeOfDay(9, 0, 0, 0))
            && r.value.durationHours == Some(1.5)
  {
    var e := RawEvent(None, None, None, None,
                      Some(EventTime(Some(startText + "Z"), None)),
                      Some(EventTime(Some(endText + "Z"), None)),
                      None, None, None, None, None, None, None, None, None, None, None, None, None, None);
    var start := DateTime(day, TimeOfDay(9, 0, 0, 0), Some(0));
    var end := DateTime(day, TimeOfDay(10, 30, 0, 0), Some(0));
    ZSuffix(startText);
    ZSuffix(endText);
    assert 'T' in startText + "Z";
    var b := EventBounds(e, env);
    assert b == Bounds(Some(start), Some(end), false);
    assert Micros(end) - Micros(start) == 5400000000;
    assert Duration(b) == Success(Some(1.5));
  }

  /**
   * A `Z`-suffixed start with an end that reads without an offset: both parse,
   * but the aware start and the naive end cannot be subtracted, and the error
   * escapes the row builder.
   */
  lemma MixedOffsetsExample(startText: string, endText: string, env: Env)
    requires 'T' in startText && 'Z' !in startText && 'Z' !in endText
    requires env.fromIsoFormat(startText + "+00:00").Some?
    requires env.fromIsoFormat(startText + "+00:00").value.utcOffset.Some?
    requires env.fromIsoFormat(endText).Some?
    requires env.fromIsoFormat(endText).value.utcOffset.None?
    ensures var e := RawEvent(None, None, None, None,
                              Some(EventTime(Some(startText + "Z"), None)),
                              Some(EventTime(Some(endText), None)),
                              None, None, None, None, None, None, None, None, None, None, None, None, None, None);
            ParseEvent(e, env).Failure?
  {
    ZSuffix(startText);
    assert 'T' in startText + "Z";
  }

  lemma ZSuffix(a: string)
    requires 'Z' !in a
    ensures ReplaceZ(a + "Z") == a + "+00:00"
  {
    ReplaceZAppend(a, "Z");
  }

  // ---------------------------------------------------------------- the loop

  /** The results of `f` on all of `xs` in order, or the first error `f` gives. */
  function Collect<A, B, E>(xs: seq<A>, f: A -> Result<B, E>): Result<seq<B>, E>
  {
    if xs == [] then Success([])
    else
      match Collect(xs[..|xs| - 1], f)
      case Failure(err) => Failure(err)
      case Success(ys) =>
        match f(xs[|xs| - 1])
        case Failure(err) => Failure(err)
        case Success(y) => Success(ys + [y])
  }

  /** `ParseEvent` with the environment fixed. */
  function Parser(env: Env): RawEvent -> Result<Row, ParseError>
  {
    e => ParseEvent(e, env)
  }

  /** The rows of all events in order, or the first error that escapes. */
  function ParseEvents(events: seq<RawEvent>, env: Env): Result<seq<Row>, ParseError>
  {
    Collect(events, Parser(env))
  }

  /**
   * All or nothing: a result for every element, one each and in order, exactly
   * when no element fails.
   */
  lemma {:induction false} CollectAll<A, B, E>(xs: seq<A>, f: A -> Result<B, E>)
    ensures Collect(xs, f).Success? <==> forall i :: 0 <= i < |xs| ==> f(xs[i]).Success?
    ensures Collect(xs, f).Success? ==>
              |Collect(xs, f).value| == |xs| &&
              forall i :: 0 <= i < |xs| ==> Collect(xs, f).value[i] == f(xs[i]).value
  {
    if xs != [] {
      var n := |xs| - 1;
      var init := xs[..n];
      CollectAll(init, f);
      assert forall i :: 0 <= i < n ==> init[i] == xs[i];
    }
  }

  /** A failing batch reports the error of the first element that fails. */
  lemma {:induction false} CollectFirstError<A, B, E>(xs: seq<A>, f: A -> Result<B, E>)
    requires Collect(xs, f).Failure?
    ensures exists i :: 0 <= i < |xs| && f(xs[i]) == Failure(Collect(xs, f).error) &&
              forall j :: 0 <= j < i ==> f(xs[j]).Success?
  {
    var n := |xs| - 1;
    var init := xs[..n];
    assert forall i :: 0 <= i < n ==> init[i] == xs[i];
    if Collect(init, f).Failure? {
      CollectFirstError(init, f);
      var i :| 0 <= i < n && f(init[i]) == Failure(Collect(init, f).error) &&
               forall j :: 0 <= j < i ==> f(init[j]).Success?;
      assert f(xs[i]) == Failure(Collect(xs, f).error);
    } else {
      CollectAll(init, f);
      assert f(xs[n]) == Failure(Collect(xs, f).error);
    }
  }

  /** Once a prefix fails, the whole batch fails with the same error. */
  lemma {:induction false} CollectFailurePersists<A, B, E>(xs: seq<A>, k: nat, f: A -> Result<B, E>)
    requires k <= |xs|
    requires Collect(xs[..k], f).Failure?
    ensures Collect(xs, f) == Collect(xs[..k], f)
    decreases |xs| - k
  {
    if k < |xs| {
      var m := |xs| - 1;
      assert xs[..m][..k] == xs[..k];
      CollectFailurePersists(xs[..m], k, f);
    } else {
      assert xs[..k] == xs;
    }
  }

  /**
   * `parse_event_data`: the rows of the events in order; an error raised while
   * building one row ends the whole call.
   */
  method ParseEventData(events: seq<RawEvent>, env: Env) returns (result: Result<seq<Row>, ParseError>)
    ensures result == ParseEvents(events, env)
    ensures result.Success? ==>
              |result.value| == |events| &&
              forall i :: 0 <= i < |events| ==> Parser(env)(events[i]) == Success(result.value[i])
  {
    var parse := Parser(env);
    var parsed: seq<Row> := [];
    for i := 0 to |events|
      invariant Collect(events[..i], parse) == Success(parsed)
    {
      assert events[..i + 1][..i] == events[..i];
      var r := parse(events[i]);
      if r.Failure? {
        CollectFailurePersists(events, i + 1, parse);
        return Failure(r.error);
      }
      parsed := parsed + [r.value];
    }
    assert events[..|events|] == events;
    CollectAll(events, parse);
    return Success(parsed);
  }
}
