/**
 * MainWindow.Run: the reply of the image-generation tool is unwrapped layer by
 * layer (an array, its first item's "text", the JSON document inside it, its
 * "success" flag, its "output" string), every failure ends in its own status
 * message, and a full success writes the decoded image under the save path.
 */
module MainWindow {
  import opened Wrappers
  import opened JsonValues
  import opened SavePaths

  /** One variant per way the cascade ends; Unhandled is an exception `catch (JsonException)` lets through. */
  datatype Outcome =
    | NotAnArray
    | MissingText
    | SuccessFalseOrMissing
    | MissingOutput
    | ImageData(base64: string)
    | ParseFailure(message: string)
    | Unhandled

  const NOT_AN_ARRAY_MESSAGE: string := "JSON result is empty or not an array as expected."
  const MISSING_TEXT_MESSAGE: string := "First item in array missing 'text' property or it's not a string."
  const SUCCESS_MESSAGE: string := "Operation failed: Inner JSON 'success' property is false or missing."
  const MISSING_OUTPUT_MESSAGE: string := "Inner JSON missing 'output' property or it's not a string."
  const PARSE_FAILURE_PREFIX: string := "Failed to parse JSON result: "
  const SAVED_PREFIX: string := "Image saved to: "

  /**
   * The inner document: `success` must be the literal true, then `output` must
   * be a string. Only a lookup on a non-object escapes the handler.
   */
  function DecodeInner(inner: Json): (r: Outcome)
    ensures r.Unhandled? <==> !inner.JObject?
    ensures r.Unhandled? || r.SuccessFalseOrMissing? || r.MissingOutput? || r.ImageData?
  {
    match TryGetProperty(inner, "success")
    case NotObject => Unhandled
    case Missing => SuccessFalseOrMissing
    case Found(success) =>
      if success != JTrue then SuccessFalseOrMissing
      else
        match TryGetProperty(inner, "output")
        case Found(JString(output)) => ImageData(output)
        case _ => MissingOutput
  }

  /**
   * The outer document: a non-empty array whose first item has a string `text`
   * holding the inner document. The "empty or not an array" failure covers
   * both cases and nothing else.
   */
  function DecodeDocument(root: Json, parse: string -> ParseResult): (r: Outcome)
    ensures r == NotAnArray <==> !root.JArray? || |root.items| == 0
    ensures r.Unhandled? ==> root.JArray? && |root.items| > 0
  {
    if !(root.JArray? && |root.items| > 0) then NotAnArray
    else
      match TryGetProperty(root.items[0], "text")
      case NotObject => Unhandled
      case Found(JString(text)) =>
        (match parse(text)
         case ParseError(message) => ParseFailure(message)
         case Parsed(inner) => DecodeInner(inner))
      case _ => MissingText
  }

  /**
   * The whole cascade. A null reply makes JsonDocument.Parse throw
   * ArgumentNullException, which escapes the handler; a reply that does not
   * parse is a parse failure carrying the parser's message.
   */
  function Decode(reply: Option<string>, parse: string -> ParseResult): (r: Outcome)
    ensures reply.None? ==> r == Unhandled
    ensures reply.Some? && parse(reply.value).ParseError? ==> r == ParseFailure(parse(reply.value).message)
    ensures reply.Some? && parse(reply.value).Parsed? ==>
      var root := parse(reply.value).root;
      (r == NotAnArray <==> !root.JArray? || |root.items| == 0)
  {
    match reply
    case None => Unhandled
    case Some(text) =>
      match parse(text)
      case ParseError(message) => ParseFailure(message)
      case Parsed(root) => DecodeDocument(root, parse)
  }

  // ---------------------------------------------------------------------------
  // What the cascade decides

  /** Only the first item is looked at: whatever follows it does not change the outcome. */
  lemma {:induction false} OnlyFirstItemMatters(first: Json, rest1: seq<Json>, rest2: seq<Json>, parse: string -> ParseResult)
    ensures DecodeDocument(JArray([first] + rest1), parse) == DecodeDocument(JArray([first] + rest2), parse)
  {
    assert ([first] + rest1)[0] == first && ([first] + rest2)[0] == first;
  }

  /** The "missing 'text'" failure: the first item is an object whose `text` is absent or not a string. */
  lemma {:induction false} MissingTextExactly(first: Json, rest: seq<Json>, parse: string -> ParseResult)
    ensures DecodeDocument(JArray([first] + rest), parse) == MissingText <==>
      first.JObject? && (LastMember(first.members, "text").None? || !LastMember(first.members, "text").value.JString?)
  {
    assert ([first] + rest)[0] == first;
  }

  /** Inner text that does not parse is a parse failure carrying the parser's message. */
  lemma {:induction false} InnerParseFailure(first: Json, rest: seq<Json>, parse: string -> ParseResult, text: string)
    requires first.JObject? && LastMember(first.members, "text") == Some(JString(text))
    requires parse(text).ParseError?
    ensures DecodeDocument(JArray([first] + rest), parse) == ParseFailure(parse(text).message)
  {
    assert ([first] + rest)[0] == first;
  }

  /** Inner text that parses hands the decision to the inner document, whatever the other items hold. */
  lemma {:induction false} InnerDecides(first: Json, rest: seq<Json>, parse: string -> ParseResult, text: string)
    requires first.JObject? && LastMember(first.members, "text") == Some(JString(text))
    requires parse(text).Parsed?
    ensures DecodeDocument(JArray([first] + rest), parse) == DecodeInner(parse(text).root)
  {
    assert ([first] + rest)[0] == first;
  }

  /** The "success false or missing" failure: any `success` other than the literal true, absent included. */
  lemma {:induction false} SuccessFalseOrMissingExactly(members: seq<(string, Json)>)
    ensures DecodeInner(JObject(members)) == SuccessFalseOrMissing <==> LastMember(members, "success") != Some(JTrue)
  {
  }

  /** The "missing 'output'" failure: `success` is true but `output` is absent or not a string. */
  lemma {:induction false} MissingOutputExactly(members: seq<(string, Json)>)
    ensures DecodeInner(JObject(members)) == MissingOutput <==>
      LastMember(members, "success") == Some(JTrue) &&
      !(LastMember(members, "output").Some? && LastMember(members, "output").value.JString?)
  {
  }

  /** The string "true", the number 1, false and a missing flag all fail, even with an `output` present. */
  lemma {:induction false} SuccessLookalikes()
    ensures DecodeInner(JObject([("success", JFalse), ("output", JString("x"))])) == SuccessFalseOrMissing
    ensures DecodeInner(JObject([("success", JString("true")), ("output", JString("x"))])) == SuccessFalseOrMissing
    ensures DecodeInner(JObject([("success", JNumber("1")), ("output", JString("x"))])) == SuccessFalseOrMissing
    ensures DecodeInner(JObject([("output", JString("x"))])) == SuccessFalseOrMissing
  {
    SuccessFalseOrMissingExactly([("success", JFalse), ("output", JString("x"))]);
    SuccessFalseOrMissingExactly([("success", JString("true")), ("output", JString("x"))]);
    SuccessFalseOrMissingExactly([("success", JNumber("1")), ("output", JString("x"))]);
  }

  /** The expected shape: `success` true and a string `output`, which becomes the image data. */
  lemma {:induction false} SuccessWithOutput(members: seq<(string, Json)>, data: string)
    requires LastMember(members, "success") == Some(JTrue)
    requires LastMember(members, "output") == Some(JString(data))
    ensures DecodeInner(JObject(members)) == ImageData(data)
  {
  }

  /**
   * An image is produced exactly when every layer is as expected, and its data is
   * the `output` string itself.
   */
  lemma {:induction false} ImageDataExactly(root: Json, parse: string -> ParseResult, data: string)
    ensures DecodeDocument(root, parse) == ImageData(data) <==>
      root.JArray? && |root.items| > 0 && root.items[0].JObject? &&
      LastMember(root.items[0].members, "text").Some? && LastMember(root.items[0].members, "text").value.JString? &&
      var text := LastMember(root.items[0].members, "text").value.text;
      parse(text).Parsed? && parse(text).root.JObject? &&
      var inner := parse(text).root.members;
      LastMember(inner, "success") == Some(JTrue) && LastMember(inner, "output") == Some(JString(data))
  {
  }

  // ---------------------------------------------------------------------------
  // Status messages

  /** The status message an outcome adds; Unhandled adds none. */
  function Message(outcome: Outcome, path: string): (m: Option<string>)
    ensures m.None? <==> outcome.Unhandled?
  {
    match outcome
    case NotAnArray => Some(NOT_AN_ARRAY_MESSAGE)
    case MissingText => Some(MISSING_TEXT_MESSAGE)
    case SuccessFalseOrMissing => Some(SUCCESS_MESSAGE)
    case MissingOutput => Some(MISSING_OUTPUT_MESSAGE)
    case ImageData(_) => Some(SAVED_PREFIX + path)
    case ParseFailure(message) => Some(PARSE_FAILURE_PREFIX + message)
    case Unhandled => None
  }

  /** The four outcomes whose message is a fixed sentence. */
  predicate FixedMessage(outcome: Outcome) {
    outcome.NotAnArray? || outcome.MissingText? || outcome.SuccessFalseOrMissing? || outcome.MissingOutput?
  }

  /**
   * Two fixed-sentence outcomes with the same message are the same outcome; two
   * prefixed messages that agree come from the same kind of outcome, and a
   * parse failure's message gives back the parser's own message.
   */
  lemma {:induction false} MessagesDistinguishOutcomes(o1: Outcome, o2: Outcome, path: string)
    requires !o1.Unhandled? && !o2.Unhandled? && FixedMessage(o1) == FixedMessage(o2)
    requires Message(o1, path) == Message(o2, path)
    ensures o1.ImageData? <==> o2.ImageData?
    ensures !o1.ImageData? ==> o1 == o2
  {
    var m := Message(o1, path).value;
    if !FixedMessage(o1) {
      assert m[0] == (if o1.ImageData? then SAVED_PREFIX[0] else PARSE_FAILURE_PREFIX[0]);
      assert m[0] == (if o2.ImageData? then SAVED_PREFIX[0] else PARSE_FAILURE_PREFIX[0]);
      if o1.ParseFailure? {
        assert m[|PARSE_FAILURE_PREFIX|..] == o1.message;
        assert m[|PARSE_FAILURE_PREFIX|..] == o2.message;
      }
    } else {
      FixedMessagesDistinct();
    }
  }

  lemma {:induction false} FixedMessagesDistinct()
    ensures NOT_AN_ARRAY_MESSAGE != MISSING_TEXT_MESSAGE && NOT_AN_ARRAY_MESSAGE != SUCCESS_MESSAGE
    ensures NOT_AN_ARRAY_MESSAGE != MISSING_OUTPUT_MESSAGE && MISSING_TEXT_MESSAGE != SUCCESS_MESSAGE
    ensures MISSING_TEXT_MESSAGE != MISSING_OUTPUT_MESSAGE && SUCCESS_MESSAGE != MISSING_OUTPUT_MESSAGE
  {
  }

  // ---------------------------------------------------------------------------
  // The window

  /** The parts of the window Run changes, and the files it writes. */
  class Window {
    var generateEnabled: bool
    var imageSource: Option<string>
    var status: seq<string>
    var files: map<string, seq<bv8>>

    /**
     * Only sets up the initial window state (the button enabled, no image, an
     * empty status bar, no files written); the window's own constructor is UI
     * wiring and is not modelled.
     */
    constructor()
      ensures generateEnabled && imageSource.None? && status == [] && files == map[]
    {
      generateEnabled := true;
      imageSource := None;
      status := [];
      files := map[];
    }

    /**
     * Base64ToImage: the text is decoded, the bytes written to `path` and the
     * path reported. Text that is not base64 throws before anything changes,
     * which `ok == false` stands for.
     */
    method SaveImage(base64Text: string, path: string, fromBase64: string -> Option<seq<bv8>>)
      returns (ok: bool)
      modifies this
      ensures ok <==> fromBase64(base64Text).Some?
      ensures ok ==> files == old(files)[path := fromBase64(base64Text).value] && status == old(status) + [SAVED_PREFIX + path]
      ensures !ok ==> files == old(files) && status == old(status)
      ensures generateEnabled == old(generateEnabled) && imageSource == old(imageSource)
    {
      var imageBytes := fromBase64(base64Text);
      if imageBytes.None? {
        return false;
      }
      files := files[path := imageBytes.value];
      status := status + [SAVED_PREFIX + path];
      return true;
    }

    /**
     * What the handler does once the reply has been decoded: a parse failure
     * reports and returns early with the button still disabled; an exception
     * `catch` does not cover (the Unhandled outcome, bad base64) leaves the
     * handler with `completed` false and nothing changed; every other outcome
     * is reported, points the image at `path` and enables the button again.
     */
    method Report(outcome: Outcome, path: string, fromBase64: string -> Option<seq<bv8>>)
      returns (completed: bool)
      modifies this
      ensures var decoded := if outcome.ImageData? then fromBase64(outcome.base64) else None;
        completed == !(outcome.Unhandled? || (outcome.ImageData? && decoded.None?)) &&
        (!completed ==>
          generateEnabled == old(generateEnabled) && status == old(status) &&
          imageSource == old(imageSource) && files == old(files)) &&
        (completed && outcome.ParseFailure? ==>
          generateEnabled == old(generateEnabled) && status == old(status) + [Message(outcome, path).value] &&
          imageSource == old(imageSource) && files == old(files)) &&
        (completed && !outcome.ParseFailure? ==>
          generateEnabled && imageSource == Some(path) && status == old(status) + [Message(outcome, path).value] &&
          files == if outcome.ImageData? then old(files)[path := decoded.value] else old(files))
    {
      if outcome.Unhandled? {
        return false;
      } else if outcome.ParseFailure? {
        status := status + [PARSE_FAILURE_PREFIX + outcome.message];
        return true;
      } else if outcome.ImageData? {
        var saved := SaveImage(outcome.base64, path, fromBase64);
        if !saved {
          return false;
        }
      } else {
        status := status + [Message(outcome, path).value];
      }
      imageSource := Some(path);
      generateEnabled := true;
      return true;
    }

    /**
     * The Generate button's handler: the button is disabled, the save path
     * computed, the reply decoded and the outcome reported. When the handler
     * ends early (`completed` false, or a parse failure) the button stays
     * disabled.
     */
    method Run(prompt: string, home: string, now: DateTime, reply: Option<string>,
               parse: string -> ParseResult, fromBase64: string -> Option<seq<bv8>>)
      returns (completed: bool)
      requires ValidDateTime(now)
      modifies this
      ensures var path := SavePath(home, now, prompt);
        var outcome := Decode(reply, parse);
        var decoded := if outcome.ImageData? then fromBase64(outcome.base64) else None;
        completed == !(outcome.Unhandled? || (outcome.ImageData? && decoded.None?)) &&
        (!completed ==> !generateEnabled && status == old(status) && imageSource == old(imageSource) && files == old(files)) &&
        (completed && outcome.ParseFailure? ==>
          !generateEnabled && status == old(status) + [Message(outcome, path).value] &&
          imageSource == old(imageSource) && files == old(files)) &&
        (completed && !outcome.ParseFailure? ==>
          generateEnabled && imageSource == Some(path) && status == old(status) + [Message(outcome, path).value] &&
          files == if outcome.ImageData? then old(files)[path := decoded.value] else old(files))
    {
      generateEnabled := false;
      var imagePath := SavePath(home, now, prompt);
      var outcome := Decode(reply, parse);
      completed := Report(outcome, imagePath, fromBase64);
    }
  }

  /** After a successful run the saved file sits in the images folder under a clean, timestamped name. */
  lemma {:induction false} SavedFileName(home: string, now: DateTime, prompt: string)
    requires ValidDateTime(now)
    ensures var dir := ImagesDirectory(home);
      var name := FileName(FormatTimestamp(now), prompt);
      SavePath(home, now, prompt) == dir + "\\" + name &&
      name == FormatTimestamp(now) + "-" + Sanitize(prompt) + ".png" &&
      Clean(Sanitize(prompt))
  {
    SavePathLayout(home, now, prompt);
  }
}
