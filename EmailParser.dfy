/**
 * The message parser of src/email_parser.py: the recursive body extractor over a
 * message's part tree, the header lookup with its defaults, the no-reply and subject
 * filters, the whitespace clean-up of the body and its 10,000-character cap.
 *
 * Library calls are parameters: base64url decoding (section 5 of RFC 4648, returning ""
 * on failure as `decode_base64` does), quoted-printable decoding (section 6.7 of
 * RFC 2045, `None` when it raises), the HTML tokenizer, and the two date conversions.
 */
module EmailParser {
  import opened Wrappers
  import opened TextUtil
  import opened HtmlText

  /**
   * A node of the part tree: its `mimeType` and its `body.data` ("" when absent). A `Multi`
   * node has a `parts` key (its list may be empty); a `Leaf` has none.
   */
  datatype Part =
    | Leaf(mimeType: string, data: string)
    | Multi(mimeType: string, data: string, parts: seq<Part>)

  /**
   * The decoding libraries the extractor calls. `tokenize` is `None` when `feed` raises on
   * the text; that exception is not caught inside the extractor.
   */
  datatype Codecs = Codecs(
    base64Url: string -> string,
    quotedPrintable: string -> Option<string>,
    tokenize: string -> Option<seq<Token>>)

  /** Stage 1 decoding, then best-effort quoted-printable; a failing stage 2 keeps stage 1. */
  function DecodePlain(data: string, c: Codecs): string {
    var decoded := c.base64Url(data);
    c.quotedPrintable(decoded).GetOr(decoded)
  }

  /** Stage 1 decoding, then the HTML-to-text converter; `None` when the tokenizer raises. */
  function DecodeHtml(data: string, c: Codecs): Option<string> {
    match c.tokenize(c.base64Url(data))
    case None => None
    case Some(events) => Some(HtmlToText(events))
  }

  predicate IsPlain(p: Part) {
    p.mimeType == "text/plain" && p.data != ""
  }

  predicate IsHtml(p: Part) {
    p.mimeType == "text/html" && p.data != ""
  }

  // ---------------------------------------------------------------------------
  // The body extractor

  /** What one turn of the sibling loop does: end the search, move on, or raise. */
  datatype Outcome = Ends(text: string) | Next | Raises

  /**
   * One turn of `extract_email_body`'s loop. A `text/plain` part with data ends the search
   * with its decoded text. A `text/html` part with data is always converted, so a raising
   * tokenizer raises out of the extractor; otherwise it ends the search with its text, but
   * only while `bodyText` is empty. Any other part that has a `parts` list is searched
   * recursively, and the nested result ends the search only if non-empty.
   */
  function PartOutcome(p: Part, bodyText: string, c: Codecs): Outcome
    decreases p
  {
    if IsPlain(p) then Ends(DecodePlain(p.data, c))
    else if IsHtml(p) && DecodeHtml(p.data, c).None? then Raises
    else if IsHtml(p) && bodyText == "" then Ends(DecodeHtml(p.data, c).value)
    else if p.Multi? then
      match ExtractBody(p.parts, bodyText, c)
      case None => Raises
      case Some(nested) => if nested != "" then Ends(nested) else Next
    else Next
  }

  /**
   * `extract_email_body(parts, body_text)`: siblings are tried in order until one ends the
   * search; when none does, `bodyText` comes back. `None` when the tokenizer raises.
   */
  function ExtractBody(parts: seq<Part>, bodyText: string, c: Codecs): Option<string>
    decreases parts
  {
    if parts == [] then Some(bodyText)
    else
      match PartOutcome(parts[0], bodyText, c)
      case Ends(text) => Some(text)
      case Raises => None
      case Next => ExtractBody(parts[1..], bodyText, c)
  }

  /** A part that ends the search at its own level, or raises, as soon as it is met. */
  predicate Bearing(p: Part, bodyText: string, c: Codecs) {
    IsPlain(p) || (IsHtml(p) && (bodyText == "" || DecodeHtml(p.data, c).None?))
  }

  /** What a bearing part makes of the search: its decoded text, or `None` for a raise. */
  function Value(p: Part, c: Codecs): Option<string> {
    if IsPlain(p) then Some(DecodePlain(p.data, c)) else DecodeHtml(p.data, c)
  }

  /**
   * The content-bearing parts in depth-first, sibling order. The children of a bearing
   * part are never looked at, because that part ends the search first.
   */
  function Walk(parts: seq<Part>, bodyText: string, c: Codecs): seq<Part>
    decreases parts
  {
    if parts == [] then [] else WalkPart(parts[0], bodyText, c) + Walk(parts[1..], bodyText, c)
  }

  function WalkPart(p: Part, bodyText: string, c: Codecs): seq<Part>
    decreases p
  {
    if Bearing(p, bodyText, c) then [p]
    else if p.Multi? then Walk(p.parts, bodyText, c)
    else []
  }

  /** With no content-bearing part anywhere, the accumulated text comes back unchanged. */
  lemma {:induction false} ExtractNothingFound(parts: seq<Part>, bodyText: string, c: Codecs)
    requires Walk(parts, bodyText, c) == []
    ensures ExtractBody(parts, bodyText, c) == Some(bodyText)
    decreases parts
  {
    if parts != [] {
      PartNothingFound(parts[0], bodyText, c);
      ExtractNothingFound(parts[1..], bodyText, c);
    }
  }

  lemma {:induction false} PartNothingFound(p: Part, bodyText: string, c: Codecs)
    requires WalkPart(p, bodyText, c) == []
    ensures PartOutcome(p, bodyText, c) == if p.Multi? && bodyText != "" then Ends(bodyText) else Next
    decreases p
  {
    if p.Multi? {
      ExtractNothingFound(p.parts, bodyText, c);
    }
  }

  /**
   * With an empty accumulator (as every caller passes), the first content-bearing part in
   * walk order decides the result whenever it does not convert to empty text: its text,
   * plain or HTML, or `None` when its HTML tokenizer raises, whatever comes after it.
   */
  lemma {:induction false} ExtractFirstInWalkWins(parts: seq<Part>, c: Codecs)
    requires Walk(parts, "", c) != [] && Value(Walk(parts, "", c)[0], c) != Some("")
    ensures ExtractBody(parts, "", c) == Value(Walk(parts, "", c)[0], c)
    decreases parts
  {
    var p := parts[0];
    if WalkPart(p, "", c) != [] {
      PartFirstInWalkWins(p, c);
    } else {
      PartNothingFound(p, "", c);
      ExtractFirstInWalkWins(parts[1..], c);
    }
  }

  lemma {:induction false} PartFirstInWalkWins(p: Part, c: Codecs)
    requires WalkPart(p, "", c) != [] && Value(WalkPart(p, "", c)[0], c) != Some("")
    ensures PartOutcome(p, "", c) ==
            match Value(WalkPart(p, "", c)[0], c)
            case Some(text) => Ends(text)
            case None => Raises
    decreases p
  {
    if !Bearing(p, "", c) {
      ExtractFirstInWalkWins(p.parts, c);
    }
  }

  /** The result is the accumulated text or what some content-bearing part makes of it. */
  lemma {:induction false} ExtractComesFromWalk(parts: seq<Part>, bodyText: string, c: Codecs)
    returns (i: int)
    ensures -1 <= i < |Walk(parts, bodyText, c)|
    ensures ExtractBody(parts, bodyText, c) ==
            if i < 0 then Some(bodyText) else Value(Walk(parts, bodyText, c)[i], c)
    decreases parts
  {
    if parts == [] {
      i := -1;
    } else {
      var front := WalkPart(parts[0], bodyText, c);
      var rest := Walk(parts[1..], bodyText, c);
      assert Walk(parts, bodyText, c) == front + rest;
      var j := PartComesFromWalk(parts[0], bodyText, c);
      if !PartOutcome(parts[0], bodyText, c).Next? {
        i := j;
        if i >= 0 {
          assert Walk(parts, bodyText, c)[i] == front[i];
        }
      } else {
        var k := ExtractComesFromWalk(parts[1..], bodyText, c);
        i := if k < 0 then -1 else |front| + k;
        if k >= 0 {
          assert Walk(parts, bodyText, c)[i] == rest[k];
        }
      }
    }
  }

  lemma {:induction false} PartComesFromWalk(p: Part, bodyText: string, c: Codecs) returns (i: int)
    ensures -1 <= i < |WalkPart(p, bodyText, c)|
    ensures PartOutcome(p, bodyText, c).Ends? ==>
              Some(PartOutcome(p, bodyText, c).text) ==
              if i < 0 then Some(bodyText) else Value(WalkPart(p, bodyText, c)[i], c)
    ensures PartOutcome(p, bodyText, c).Raises? ==>
              0 <= i && Value(WalkPart(p, bodyText, c)[i], c).None?
    decreases p
  {
    if Bearing(p, bodyText, c) {
      i := 0;
    } else if p.Multi? {
      i := ExtractComesFromWalk(p.parts, bodyText, c);
    } else {
      i := -1;
    }
  }

  /** While the accumulator is non-empty, only plain-text parts and raising HTML parts bear content. */
  lemma {:induction false} WalkWithBodyIsPlain(parts: seq<Part>, bodyText: string, c: Codecs)
    requires bodyText != ""
    ensures forall w :: w in Walk(parts, bodyText, c) ==> IsPlain(w) || Value(w, c).None?
    decreases parts
  {
    if parts != [] {
      if parts[0].Multi? && !Bearing(parts[0], bodyText, c) {
        WalkWithBodyIsPlain(parts[0].parts, bodyText, c);
      }
      WalkWithBodyIsPlain(parts[1..], bodyText, c);
    }
  }

  /** With a non-empty accumulator an HTML part's text never becomes the result. */
  lemma ExtractWithBodyNeverHtml(parts: seq<Part>, bodyText: string, c: Codecs)
    requires bodyText != ""
    ensures var r := ExtractBody(parts, bodyText, c);
            r == Some(bodyText) || r == None ||
            exists w :: w in Walk(parts, bodyText, c) && IsPlain(w) && r == Some(DecodePlain(w.data, c))
  {
    var i := ExtractComesFromWalk(parts, bodyText, c);
    WalkWithBodyIsPlain(parts, bodyText, c);
    if i >= 0 {
      var w := Walk(parts, bodyText, c)[i];
      assert w in Walk(parts, bodyText, c);
    }
  }

  /**
   * The first part that bears content decides the result even when its text is empty, as
   * long as every sibling before it moves the search on.
   */
  lemma {:induction false} FirstBearingSiblingWins(parts: seq<Part>, k: nat, bodyText: string, c: Codecs)
    requires k < |parts| && Bearing(parts[k], bodyText, c)
    requires forall j :: 0 <= j < k ==> PartOutcome(parts[j], bodyText, c) == Next
    ensures ExtractBody(parts, bodyText, c) == Value(parts[k], c)
  {
    if k > 0 {
      assert PartOutcome(parts[0], bodyText, c) == Next;
      FirstBearingSiblingWins(parts[1..], k - 1, bodyText, c);
    }
  }

  /**
   * A nested part list ends the search only with a non-empty result or a raise; an empty
   * nested result moves the search on to the next sibling.
   */
  lemma NestedResultRule(p: Part, rest: seq<Part>, bodyText: string, c: Codecs)
    requires !Bearing(p, bodyText, c) && p.Multi?
    ensures var nested := ExtractBody(p.parts, bodyText, c);
            ExtractBody([p] + rest, bodyText, c) ==
            if nested == Some("") then ExtractBody(rest, bodyText, c) else nested
  {
    assert ([p] + rest)[1..] == rest;
  }

  /** An HTML part listed before a plain-text sibling wins over it, or raises. */
  lemma HtmlBeforePlainWins(h: Part, t: Part, c: Codecs)
    requires IsHtml(h) && IsPlain(t)
    ensures ExtractBody([h, t], "", c) == DecodeHtml(h.data, c)
  {
  }

  /**
   * An HTML part whose tokenizer raises aborts the search wherever the search reaches it,
   * even when the accumulator is non-empty and its text would not be used.
   */
  lemma HtmlRaiseAborts(h: Part, rest: seq<Part>, bodyText: string, c: Codecs)
    requires IsHtml(h) && DecodeHtml(h.data, c).None?
    ensures ExtractBody([h] + rest, bodyText, c).None?
  {
  }

  // ---------------------------------------------------------------------------
  // Headers

  /** One entry of `payload.headers`; a missing `name` or `value` key is `None`. */
  datatype Header = Header(name: Option<string>, value: Option<string>)

  predicate WellFormed(h: Header) {
    h.name.Some? && h.value.Some?
  }

  /**
   * `{h['name'].lower(): h['value'] for h in headers}`: a later header overwrites an
   * earlier one of the same lowercased name; a header lacking a key raises (`None`).
   */
  function HeaderMap(hs: seq<Header>): Option<map<string, string>> {
    if hs == [] then Some(map[])
    else
      var h := hs[|hs| - 1];
      match HeaderMap(hs[..|hs| - 1])
      case None => None
      case Some(m) =>
        if WellFormed(h) then Some(m[Lower(h.name.value) := h.value.value]) else None
  }

  /** The lookup fails exactly when some header lacks its name or its value. */
  lemma {:induction false} HeaderMapFails(hs: seq<Header>)
    ensures HeaderMap(hs).None? <==> exists i :: 0 <= i < |hs| && !WellFormed(hs[i])
  {
    if hs != [] {
      var init := hs[..|hs| - 1];
      HeaderMapFails(init);
      if exists i :: 0 <= i < |init| && !WellFormed(init[i]) {
        var i :| 0 <= i < |init| && !WellFormed(init[i]);
        assert hs[i] == init[i];
      }
      if exists i :: 0 <= i < |hs| && !WellFormed(hs[i]) {
        var i :| 0 <= i < |hs| && !WellFormed(hs[i]);
        if i < |init| {
          assert init[i] == hs[i];
        }
      }
    }
  }

  /** A repeated header name resolves to its last occurrence. */
  lemma {:induction false} HeaderLastWins(hs: seq<Header>, i: nat)
    requires HeaderMap(hs).Some? && i < |hs| && WellFormed(hs[i])
    requires forall j :: i < j < |hs| && WellFormed(hs[j]) ==> Lower(hs[j].name.value) != Lower(hs[i].name.value)
    ensures Lower(hs[i].name.value) in HeaderMap(hs).value
    ensures HeaderMap(hs).value[Lower(hs[i].name.value)] == hs[i].value.value
  {
    var init := hs[..|hs| - 1];
    if i < |hs| - 1 {
      assert init[i] == hs[i];
      HeaderLastWins(init, i);
    }
  }

  /** A name that no header carries (after lowercasing) is absent from the lookup. */
  lemma {:induction false} HeaderAbsent(hs: seq<Header>, key: string)
    requires HeaderMap(hs).Some?
    requires forall j :: 0 <= j < |hs| && WellFormed(hs[j]) ==> Lower(hs[j].name.value) != key
    ensures key !in HeaderMap(hs).value
  {
    if hs != [] {
      HeaderAbsent(hs[..|hs| - 1], key);
    }
  }

  /** `dict.get(key, default)`. */
  function Lookup(h: map<string, string>, key: string, default: string): string {
    if key in h then h[key] else default
  }

  // ---------------------------------------------------------------------------
  // Filters and configuration

  /** `EXCLUDE_NO_REPLY` and `SUBJECT_FILTER`, passed in rather than read from the environment. */
  datatype Config = Config(excludeNoReply: bool, subjectFilter: string)

  predicate IsNoReply(sender: string) {
    Contains(Lower(sender), "no-reply") || Contains(Lower(sender), "noreply")
  }

  predicate FailsSubjectFilter(subject: string, keyword: string) {
    keyword != "" && !Contains(Lower(subject), Lower(keyword))
  }

  // ---------------------------------------------------------------------------
  // Date, body and content

  /** The two date conversions; `None` when the library raises. */
  datatype DateLib = DateLib(
    fromHeader: string -> Option<string>,
    fromTimestamp: string -> Option<string>)

  /**
   * The header date converted to ISO form; when the header is empty, the internal
   * timestamp converted; when both are missing, "". A failing conversion yields the raw
   * header text.
   */
  function DateIso(dateStr: string, internalDate: string, d: DateLib): (r: string)
    ensures dateStr == "" && internalDate == "" ==> r == ""
    ensures dateStr != "" && d.fromHeader(dateStr).None? ==> r == dateStr
    ensures dateStr == "" && d.fromTimestamp(internalDate).None? ==> r == ""
  {
    if dateStr != "" then d.fromHeader(dateStr).GetOr(dateStr)
    else if internalDate != "" then d.fromTimestamp(internalDate).GetOr(dateStr)
    else ""
  }

  /** The message payload: headers, the optional top-level parts list, the top-level body data. */
  datatype Payload = Payload(headers: seq<Header>, parts: Option<seq<Part>>, data: string)

  /** A full message; `internalDate` is "" when absent. */
  datatype Message = Message(id: string, payload: Payload, internalDate: string)

  /**
   * The body before clean-up: the extractor over the top-level parts when the key is
   * present; `None` when the extractor raises.
   */
  function RawBody(payload: Payload, c: Codecs): Option<string> {
    if payload.parts.Some? then ExtractBody(payload.parts.value, "", c)
    else if payload.data != "" then Some(c.base64Url(payload.data))
    else Some("")
  }

  const MaxEmailBodyLength: nat := 10000
  const TruncateSuffix: string := "...[TRUNCATED]"
  const MaxContentLength: nat := MaxEmailBodyLength - |TruncateSuffix|
  const NoContent: string := "(No content)"

  datatype Capped = Capped(content: string, wasTruncated: bool)

  /**
   * The body, or "(No content)" when it is empty, cut to 9,986 characters plus the
   * truncation suffix when longer than 10,000. Characters are code points, so a cut never
   * splits one.
   */
  function CapBody(body: string): (r: Capped)
    ensures r.content != "" && |r.content| <= MaxEmailBodyLength
    ensures body == "" ==> r == Capped(NoContent, false)
    ensures body != "" && |body| <= MaxEmailBodyLength ==> r == Capped(body, false)
    ensures |body| > MaxEmailBodyLength ==>
              r.wasTruncated && |r.content| == MaxEmailBodyLength &&
              r.content == body[..MaxContentLength] + TruncateSuffix
  {
    var content := if body != "" then body else NoContent;
    if |content| > MaxEmailBodyLength then
      if |content| > MaxContentLength then
        Capped(content[..MaxContentLength] + TruncateSuffix, true)
      else Capped(content, false)
    else Capped(content, false)
  }

  /** Capping text that is already capped changes nothing. */
  lemma CapBodyIdempotent(body: string)
    ensures CapBody(CapBody(body).content).content == CapBody(body).content
    ensures !CapBody(CapBody(body).content).wasTruncated
  {
  }

  /** A body that is empty or only whitespace becomes "(No content)", untruncated. */
  lemma BlankBodyNoContent(body: string)
    requires AllWs(body)
    ensures CapBody(CollapseWhitespace(body)) == Capped(NoContent, false)
  {
    NonWsOfAllWs(body);
  }

  /** `parse_email_message`'s result record. */
  datatype ParsedEmail = ParsedEmail(
    from: string, subject: string, date: string, content: string,
    messageId: string, wasTruncated: bool)

  /**
   * `parse_email_message`: `None` when a header is malformed, when the no-reply filter
   * rejects the sender, when the subject filter rejects the subject, or when the HTML
   * tokenizer raises while the body is extracted; otherwise the record, whose content is
   * the cleaned and capped body.
   */
  function ParseEmailMessage(msg: Message, cfg: Config, c: Codecs, d: DateLib): (r: Option<ParsedEmail>)
    ensures HeaderMap(msg.payload.headers).None? ==> r.None?
    ensures r.Some? ==>
              && r.value.messageId == msg.id
              && !(cfg.excludeNoReply && IsNoReply(r.value.from))
              && !FailsSubjectFilter(r.value.subject, cfg.subjectFilter)
              && r.value.content != "" && |r.value.content| <= MaxEmailBodyLength
              && RawBody(msg.payload, c).Some?
              && CapBody(CollapseWhitespace(RawBody(msg.payload, c).value)) == Capped(r.value.content, r.value.wasTruncated)
    ensures HeaderMap(msg.payload.headers).Some? ==>
              var h := HeaderMap(msg.payload.headers).value;
              var from := if "from" in h then h["from"] else "Unknown";
              var subject := if "subject" in h then h["subject"] else "(No Subject)";
              (r.None? <==> (cfg.excludeNoReply && IsNoReply(from)) ||
                            FailsSubjectFilter(subject, cfg.subjectFilter) ||
                            RawBody(msg.payload, c).None?) &&
              (r.Some? ==> r.value.from == from && r.value.subject == subject &&
                           r.value.date == DateIso(Lookup(h, "date", ""), msg.internalDate, d))
  {
    match HeaderMap(msg.payload.headers)
    case None => None
    case Some(h) =>
      var from := Lookup(h, "from", "Unknown");
      var subject := Lookup(h, "subject", "(No Subject)");
      var dateStr := Lookup(h, "date", "");
      if cfg.excludeNoReply && IsNoReply(from) then None
      else if FailsSubjectFilter(subject, cfg.subjectFilter) then None
      else
        match RawBody(msg.payload, c)
        case None => None
        case Some(body) =>
          var capped := CapBody(CollapseWhitespace(body));
          Some(ParsedEmail(from, subject, DateIso(dateStr, msg.internalDate, d),
                           capped.content, msg.id, capped.wasTruncated))
  }

  /**
   * A message whose body is missing, empty or only whitespace (an empty top-level part
   * list, say) is recorded with the content "(No content)".
   */
  lemma EmptyBodyGivesNoContent(msg: Message, cfg: Config, c: Codecs, d: DateLib)
    requires RawBody(msg.payload, c).Some? && AllWs(RawBody(msg.payload, c).value)
    ensures ParseEmailMessage(msg, cfg, c, d).Some? ==>
              && ParseEmailMessage(msg, cfg, c, d).value.content == NoContent
              && !ParseEmailMessage(msg, cfg, c, d).value.wasTruncated
  {
    BlankBodyNoContent(RawBody(msg.payload, c).value);
  }

  /** With an empty top-level part list there is no body. */
  lemma EmptyPartsNoBody(payload: Payload, c: Codecs)
    requires payload.parts == Some([])
    ensures RawBody(payload, c) == Some("")
  {
  }
}
