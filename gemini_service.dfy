/** The local logic of `services/geminiService.ts`: the data-URL prefix strip of
    `fileToBase64`, and, inside `analyzeImageForLocation`, the normalisation of the
    model's parsed JSON reply and the mapping of every failure to a user message.
    The remote call is a parameter: a function from the image part sent to the
    outcome that comes back. */
module GeminiService {
  import opened Wrappers
  import opened Types
  import JsString

  const LocationFallback := "Location could not be determined."
  const ConfidenceFallback := "Not specified"
  const EmptyResultMessage := "The AI did not return a valid analysis result."
  const InvalidFormatMessage := "The AI returned an invalid response format. Please try again."
  const AnalysisFailedMessage := "An error occurred during image analysis. Please try again with a different image."

  // ---------------------------------------------------------------------------
  // Encoding: `result.split(',')[1]`
  // ---------------------------------------------------------------------------

  /** What `FileReader.readAsDataURL` delivers: the data URL, or an error event. */
  datatype ReadOutcome = ReadFailed | DataUrl(url: string)

  /** `url.split(',')[1]`; `None` stands for `undefined`. The payload is absent exactly
      when the URL has no comma, and a present payload holds no comma. */
  function Base64Payload(url: string): (payload: Option<string>)
    ensures payload.None? <==> ',' !in url
    ensures payload.Some? ==> ',' !in payload.value
  {
    var parts := JsString.Split(url, ',');
    JsString.JoinSplit(url, ',');
    if |parts| >= 2 then Some(parts[1]) else None
  }

  /** The data URL the browser produces for a file of type `mime` with base64 body `b64`. */
  function DataUrlOf(mime: string, b64: string): string {
    "data:" + mime + ";base64," + b64
  }

  /** The payload is the segment after the first comma, up to the second comma or the end. */
  lemma PayloadIsSecondSegment(head: string, payload: string, rest: string)
    requires ',' !in head && ',' !in payload
    requires rest == [] || rest[0] == ','
    ensures Base64Payload(head + [','] + payload + rest) == Some(payload)
  {
    var url := head + [','] + payload + rest;
    if rest == [] {
      JsString.SplitJoin([head, payload], ',');
      assert JsString.Join([head, payload], ',') == url;
    } else {
      var tail := rest[1..];
      var more := JsString.Split(tail, ',');
      JsString.JoinSplit(tail, ',');
      var parts := [head, payload] + more;
      assert parts[2..] == more;
      forall k | 0 <= k < |parts| ensures ',' !in parts[k] {
        if k >= 2 { assert parts[k] == more[k - 2]; }
      }
      JsString.SplitJoin(parts, ',');
      assert parts[1..] == [payload] + more;
      assert ([payload] + more)[1..] == more;
      assert JsString.Join([payload] + more, ',') == payload + [','] + tail;
      assert JsString.Join(parts, ',') == head + [','] + (payload + [','] + tail);
      assert rest == [','] + tail;
      assert JsString.Join(parts, ',') == url;
    }
  }

  /** For `data:<mime>;base64,<b64>` the payload is exactly `<b64>`. */
  lemma DataUrlPayload(mime: string, b64: string)
    requires ',' !in mime && ',' !in b64
    ensures Base64Payload(DataUrlOf(mime, b64)) == Some(b64)
  {
    var head := "data:" + mime + ";base64";
    assert forall c :: c in head ==> c in "data:;base64" || c in mime;
    PayloadIsSecondSegment(head, b64, "");
    assert DataUrlOf(mime, b64) == head + [','] + b64 + "";
  }

  // ---------------------------------------------------------------------------
  // The parsed reply, as far as the normaliser looks at it
  // ---------------------------------------------------------------------------

  /** One element of the raw `justification` array. A JSON `null` element makes
      `item.category` throw; any other non-object element reads as `Entry(None, None)`. */
  datatype RawEntry = NullEntry | Entry(category: Option<string>, details: Option<seq<string>>)

  /** The raw `justification` field: absent or falsy, truthy but not an array, or an array. */
  datatype JustificationField = Missing | NonArray | Items(entries: seq<RawEntry>)

  /** The outcome of `JSON.parse(text)`: a `SyntaxError`, the value `null` (reading a
      property of it throws), or any other value, seen through its three fields. */
  datatype Reply =
    | ParseFailed
    | NullValue
    | Object(location: Option<string>, confidence: Option<string>, justification: JustificationField)

  /** What the `try` block can throw: a `SyntaxError`, a `TypeError`, or another `Error`. */
  datatype Fault = SyntaxFault | TypeFault | ErrorFault(message: string)

  /** What the exported function rejects with: an `Error` with a message, or a
      value that is not an `Error` (the reader's error event). */
  datatype Thrown = ErrorValue(message: string) | NonErrorValue

  /** The inline image part of the request. */
  datatype ImagePart = ImagePart(mimeType: string, data: Option<string>)

  /** The outcome of `generateContent` followed by reading the reply text and parsing it. */
  datatype CallOutcome = CallFailed(fault: Fault) | Replied(reply: Reply)

  // ---------------------------------------------------------------------------
  // Normalisation
  // ---------------------------------------------------------------------------

  /** JavaScript truthiness of an optional string field. */
  predicate Truthy(v: Option<string>) {
    v.Some? && v.value != ""
  }

  /** `v || fallback`. */
  function OrElse(v: Option<string>, fallback: string): (r: string)
    ensures Truthy(v) ==> r == v.value
    ensures !Truthy(v) ==> r == fallback
  {
    if Truthy(v) then v.value else fallback
  }

  /** The entry passes `item.category && item.details && item.details.length > 0`. */
  predicate Kept(e: RawEntry) {
    e.Entry? && Truthy(e.category) && e.details.Some? && |e.details.value| > 0
  }

  /** The one name for which `obj[name] = value` on a plain object adds no own key: it
      runs the prototype setter inherited from `Object.prototype` instead. */
  const ProtoSetterKey := "__proto__"

  /** `obj[key] = value` on the plain `justification` object, seen through its own keys
      (which `Object.keys` lists): every key but the prototype setter's is stored. */
  function SetProperty(obj: Justification, key: string, value: seq<string>): (r: Justification)
    ensures key != ProtoSetterKey ==> key in r && r[key] == value
    ensures forall k :: k != key ==> (k in r <==> k in obj) && (k in r ==> r[k] == obj[k])
    ensures key == ProtoSetterKey ==> r == obj
  {
    if key == ProtoSetterKey then obj else obj[key := value]
  }

  /** The entry is kept and adds the own key `k`. */
  predicate KeptAs(e: RawEntry, k: string) {
    Kept(e) && e.category.value == k && k != ProtoSetterKey
  }

  /** The `forEach` over the array, as a left fold; `None` when an element throws.
      Every stored category is a non-empty name other than the prototype setter's,
      mapped to a non-empty details sequence. */
  function Fold(entries: seq<RawEntry>): (r: Option<Justification>)
    ensures r.Some? ==> forall k :: k in r.value ==> k != "" && k != ProtoSetterKey && |r.value[k]| > 0
    decreases |entries|
  {
    if entries == [] then Some(map[])
    else
      match Fold(entries[..|entries| - 1])
      case None => None
      case Some(m) =>
        var e := entries[|entries| - 1];
        if e.NullEntry? then None
        else if Kept(e) then Some(SetProperty(m, e.category.value, e.details.value))
        else Some(m)
  }

  /** The `justification` map built from the raw field (lines 97-104); it holds only
      non-empty names mapped to non-empty details. */
  function JustificationOf(field: JustificationField): (r: Option<Justification>)
    ensures r.Some? ==> forall k :: k in r.value ==> k != "" && k != ProtoSetterKey && |r.value[k]| > 0
  {
    match field
    case Items(entries) => Fold(entries)
    case _ => Some(map[])
  }

  /** The rejection test of line 113. */
  predicate IsEmptyResult(r: AnalysisResult) {
    r.location == LocationFallback && |r.justification.Keys| == 0
  }

  /** Everything the `try` block does after the remote call. A reply that does not parse
      is a `SyntaxError`; a success is never an empty result and has no sources. */
  function Normalise(reply: Reply): (r: Result<AnalysisResult, Fault>)
    ensures reply.ParseFailed? <==> r == Failure(SyntaxFault)
    ensures r.Success? ==> reply.Object? && r.value.sources == [] && !IsEmptyResult(r.value)
  {
    match reply
    case ParseFailed => Failure(SyntaxFault)
    case NullValue => Failure(TypeFault)
    case Object(location, confidence, field) =>
      match JustificationOf(field)
      case None => Failure(TypeFault)
      case Some(j) =>
        var result := AnalysisResult(OrElse(location, LocationFallback), OrElse(confidence, ConfidenceFallback), j, []);
        if IsEmptyResult(result) then Failure(ErrorFault(EmptyResultMessage)) else Success(result)
  }

  /** The whole `try` block. */
  function TryBlock(call: CallOutcome): Result<AnalysisResult, Fault> {
    match call
    case CallFailed(fault) => Failure(fault)
    case Replied(reply) => Normalise(reply)
  }

  /** The `catch` block: a `SyntaxError` becomes the format message, anything else the generic one. */
  function UserMessage(fault: Fault): (message: string)
    ensures message == InvalidFormatMessage <==> fault.SyntaxFault?
    ensures message == AnalysisFailedMessage <==> !fault.SyntaxFault?
  {
    if fault.SyntaxFault? then InvalidFormatMessage else AnalysisFailedMessage
  }

  /** The value the `try`/`catch` settles with: a result passes through unchanged, and
      every fault becomes an `Error` carrying one of the two user messages. */
  function Caught(r: Result<AnalysisResult, Fault>): (c: Result<AnalysisResult, Thrown>)
    ensures r.Success? <==> c.Success?
    ensures r.Success? ==> c.value == r.value
    ensures r.Failure? ==> c.Failure? && c.error.ErrorValue?
    ensures r.Failure? ==> c.error.message == InvalidFormatMessage || c.error.message == AnalysisFailedMessage
  {
    match r
    case Success(result) => Success(result)
    case Failure(fault) => Failure(ErrorValue(UserMessage(fault)))
  }

  /** The part sent for `file` once the reader has produced `url`: the file's own MIME
      type, and data that is `undefined` exactly when the URL has no comma. */
  function RequestPart(file: File, url: string): (part: ImagePart)
    ensures part.mimeType == file.mimeType
    ensures part.data.None? <==> ',' !in url
  {
    ImagePart(file.mimeType, Base64Payload(url))
  }

  /** `analyzeImageForLocation(file)`. A read failure rejects before the `try`, with the
      reader's error event, which is not an `Error`. */
  function Analysis(file: File, read: ReadOutcome, service: ImagePart -> CallOutcome): (r: Result<AnalysisResult, Thrown>)
    ensures read.ReadFailed? ==> r == Failure(NonErrorValue)
    ensures read.DataUrl? && r.Failure? ==> r.error.ErrorValue?
    ensures r.Success? ==> r.value.sources == [] && !IsEmptyResult(r.value)
  {
    match read
    case ReadFailed => Failure(NonErrorValue)
    case DataUrl(url) => Caught(TryBlock(service(RequestPart(file, url))))
  }

  // ---------------------------------------------------------------------------
  // The imperative build and the exported operation
  // ---------------------------------------------------------------------------

  /** Lines 97-104: the mutable `justification` object filled by `forEach`. */
  method BuildJustification(field: JustificationField) returns (j: Option<Justification>)
    ensures j == JustificationOf(field)
  {
    if !field.Items? {
      return Some(map[]);
    }
    var entries := field.entries;
    var acc: Justification := map[];
    var i := 0;
    while i < |entries|
      invariant 0 <= i <= |entries|
      invariant Fold(entries[..i]) == Some(acc)
    {
      var e := entries[i];
      assert entries[..i + 1][..i] == entries[..i];
      if e.NullEntry? {
        FoldFailureIsFinal(entries, i + 1);
        return None;
      }
      if e.category.Some? && e.category.value != "" && e.details.Some? && |e.details.value| > 0 {
        acc := SetProperty(acc, e.category.value, e.details.value);
      }
      i := i + 1;
    }
    assert entries[..i] == entries;
    j := Some(acc);
  }

  /** Lines 94-125 once the remote call is taken as an input. */
  method AnalyzeImageForLocation(file: File, read: ReadOutcome, service: ImagePart -> CallOutcome)
    returns (r: Result<AnalysisResult, Thrown>)
    ensures r == Analysis(file, read, service)
  {
    if read.ReadFailed? {
      return Failure(NonErrorValue);
    }
    var call := service(RequestPart(file, read.url));
    if call.CallFailed? {
      return Failure(ErrorValue(UserMessage(call.fault)));
    }
    var reply := call.reply;
    if reply.ParseFailed? {
      return Failure(ErrorValue(InvalidFormatMessage));
    }
    if reply.NullValue? {
      return Failure(ErrorValue(AnalysisFailedMessage));
    }
    var justification := BuildJustification(reply.justification);
    if justification.None? {
      return Failure(ErrorValue(AnalysisFailedMessage));
    }
    var finalResult := AnalysisResult(
      OrElse(reply.location, LocationFallback),
      OrElse(reply.confidence, ConfidenceFallback),
      justification.value,
      []);
    if finalResult.location == LocationFallback && |finalResult.justification.Keys| == 0 {
      return Failure(ErrorValue(AnalysisFailedMessage));
    }
    r := Success(finalResult);
  }

  // ---------------------------------------------------------------------------
  // Properties of the justification fold
  // ---------------------------------------------------------------------------

  /** Once an element has thrown, the rest of the array cannot undo it. */
  lemma {:induction false} FoldFailureIsFinal(entries: seq<RawEntry>, n: nat)
    requires n <= |entries|
    requires Fold(entries[..n]).None?
    ensures Fold(entries).None?
    decreases |entries| - n
  {
    if n < |entries| {
      var m := n + 1;
      assert entries[..m][..n] == entries[..n];
      assert Fold(entries[..m]).None?;
      FoldFailureIsFinal(entries, m);
    } else {
      assert entries[..n] == entries;
    }
  }

  /** The fold throws exactly when the array holds a `null` element. */
  lemma {:induction false} FoldFailsIffNullEntry(entries: seq<RawEntry>)
    ensures Fold(entries).None? <==> NullEntry in entries
    decreases |entries|
  {
    if entries != [] {
      var init := entries[..|entries| - 1];
      FoldFailsIffNullEntry(init);
      assert entries == init + [entries[|entries| - 1]];
    }
  }

  /** A category is a key of the folded map exactly when some kept entry names it,
      and its value is the details of the LAST kept entry that names it. */
  lemma {:induction false} FoldContents(entries: seq<RawEntry>, m: Justification)
    requires Fold(entries) == Some(m)
    ensures forall k :: k in m <==> exists i :: 0 <= i < |entries| && KeptAs(entries[i], k)
    ensures forall k, i ::
      0 <= i < |entries| && KeptAs(entries[i], k) && (forall j :: i < j < |entries| ==> !KeptAs(entries[j], k))
      ==> k in m && m[k] == entries[i].details.value
    decreases |entries|
  {
    if entries != [] {
      var n := |entries| - 1;
      var init := entries[..n];
      var e := entries[n];
      var m0 :| Fold(init) == Some(m0);
      FoldContents(init, m0);
      forall k ensures k in m <==> exists i :: 0 <= i < |entries| && KeptAs(entries[i], k) {
        if k in m {
          if KeptAs(e, k) {
            assert KeptAs(entries[n], k);
          } else {
            var i :| 0 <= i < |init| && KeptAs(init[i], k);
            assert KeptAs(entries[i], k);
          }
        } else {
          forall i | 0 <= i < |entries| ensures !KeptAs(entries[i], k) {
            if i < n { assert init[i] == entries[i]; }
          }
        }
      }
      forall k, i |
        0 <= i < |entries| && KeptAs(entries[i], k) && (forall j :: i < j < |entries| ==> !KeptAs(entries[j], k))
        ensures k in m && m[k] == entries[i].details.value
      {
        if i < n {
          assert !KeptAs(entries[n], k);
          assert init[i] == entries[i];
          assert forall j :: i < j < |init| ==> init[j] == entries[j];
        }
      }
    }
  }

  /** An entry with empty details is dropped, a later one with details is kept. */
  lemma EmptyDetailsDroppedExample()
    ensures JustificationOf(Items([Entry(Some("A"), Some([])), Entry(Some("B"), Some(["x"]))]))
            == Some(map["B" := ["x"]])
  {
    var entries := [Entry(Some("A"), Some([])), Entry(Some("B"), Some(["x"]))];
    assert entries[..1][..0] == [];
    assert Fold(entries[..1]) == Some(map[]);
  }

  /** A category named `__proto__` passes the filter but adds no own key, so a reply
      whose only evidence sits under that name is rejected as empty. */
  lemma ProtoCategoryAddsNoKey(confidence: Option<string>)
    ensures JustificationOf(Items([Entry(Some(ProtoSetterKey), Some(["x"]))])) == Some(map[])
    ensures Normalise(Object(Some(""), confidence, Items([Entry(Some(ProtoSetterKey), Some(["x"]))])))
            == Failure(ErrorFault(EmptyResultMessage))
  {
    var entries := [Entry(Some(ProtoSetterKey), Some(["x"]))];
    assert entries[..|entries| - 1] == [];
    assert Kept(entries[0]);
    assert Fold(entries) == Some(SetProperty(map[], ProtoSetterKey, ["x"]));
  }

  /** An absent or non-array `justification` yields the empty map. */
  lemma NonArrayJustificationIsEmpty(field: JustificationField)
    requires !field.Items?
    ensures JustificationOf(field) == Some(map[])
  {
  }

  // ---------------------------------------------------------------------------
  // Properties of the normaliser and the error mapping
  // ---------------------------------------------------------------------------

  /** On success the result is exactly the normalised record, and it is not empty. */
  lemma SuccessIsNormalisedRecord(reply: Reply, r: AnalysisResult)
    requires Normalise(reply) == Success(r)
    ensures reply.Object?
    ensures JustificationOf(reply.justification) == Some(r.justification)
    ensures r == AnalysisResult(OrElse(reply.location, LocationFallback),
                                OrElse(reply.confidence, ConfidenceFallback),
                                r.justification, [])
    ensures r.location != LocationFallback || |r.justification| > 0
  {
  }

  /** A reply whose array throws nowhere is rejected iff its location falls back (or
      literally is the fallback text) and its justification map is empty. */
  lemma RejectedIffFallbackAndNoCategories(location: Option<string>, confidence: Option<string>, field: JustificationField, j: Justification)
    requires JustificationOf(field) == Some(j)
    ensures Normalise(Object(location, confidence, field)).Failure?
            <==> (OrElse(location, LocationFallback) == LocationFallback && j == map[])
    ensures Normalise(Object(location, confidence, field)).Failure? ==>
            Normalise(Object(location, confidence, field)) == Failure(ErrorFault(EmptyResultMessage))
  {
    var r := AnalysisResult(OrElse(location, LocationFallback), OrElse(confidence, ConfidenceFallback), j, []);
    if j != map[] {
      var k :| k in j;
      assert k in j.Keys;
    }
  }

  /** The fallback text returned literally by the model is rejected like a missing location. */
  lemma LiteralFallbackLocationRejected(confidence: Option<string>, field: JustificationField)
    requires JustificationOf(field) == Some(map[])
    ensures Normalise(Object(Some(LocationFallback), confidence, field)) == Failure(ErrorFault(EmptyResultMessage))
  {
  }

  /** The exported function rejects only with one of the two messages, or with the
      reader's non-`Error` event; the empty-result message never escapes. */
  lemma FailuresAreOneOfTwoMessages(file: File, read: ReadOutcome, service: ImagePart -> CallOutcome)
    ensures Analysis(file, read, service).Failure? ==>
      var e := Analysis(file, read, service).error;
      e == NonErrorValue || e == ErrorValue(InvalidFormatMessage) || e == ErrorValue(AnalysisFailedMessage)
    ensures Analysis(file, read, service) != Failure(ErrorValue(EmptyResultMessage))
  {
  }

  /** A reply that does not parse yields exactly the format message. */
  lemma ParseFailureMessage(file: File, url: string, service: ImagePart -> CallOutcome)
    requires service(RequestPart(file, url)) == Replied(ParseFailed)
    ensures Analysis(file, DataUrl(url), service) == Failure(ErrorValue(InvalidFormatMessage))
  {
  }

  /** A parsed but empty reply (no usable location, and a justification field that is
      absent, not an array, or whose entries all add no key) is reported with the
      generic message, not its own. */
  lemma EmptyReplyMessage(file: File, url: string, service: ImagePart -> CallOutcome,
                          location: Option<string>, confidence: Option<string>, field: JustificationField)
    requires !Truthy(location)
    requires JustificationOf(field) == Some(map[])
    requires service(RequestPart(file, url)) == Replied(Object(location, confidence, field))
    ensures Analysis(file, DataUrl(url), service) == Failure(ErrorValue(AnalysisFailedMessage))
  {
  }

  /** A successful analysis returns exactly what the normaliser produced from the reply
      to a request carrying the stripped payload; `sources` is empty. */
  lemma SuccessCarriesPayloadReply(file: File, mime: string, b64: string, service: ImagePart -> CallOutcome)
    requires ',' !in mime && ',' !in b64
    ensures Analysis(file, DataUrl(DataUrlOf(mime, b64)), service)
            == Caught(TryBlock(service(ImagePart(file.mimeType, Some(b64)))))
    ensures Analysis(file, DataUrl(DataUrlOf(mime, b64)), service).Success? ==>
            Analysis(file, DataUrl(DataUrlOf(mime, b64)), service).value.sources == []
  {
    DataUrlPayload(mime, b64);
  }
}
