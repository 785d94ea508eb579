/**
 * PGMcpClient: reading the genimage server entry from the configuration
 * document, and the gates that keep the client from launching the server or
 * calling its tool when that entry was not found.
 */
module McpClient {
  import opened Wrappers
  import opened JsonValues

  /** A lookup that either yields a value or throws (and so ends the constructor). */
  datatype Read<+T> = Value(value: T) | Threw

  /** How reading the configuration ends. */
  datatype ConfigOutcome =
    | Configured(command: Option<string>, args: seq<Option<string>>)
    | MissingServers
    | MissingGenimage
    | ConfigThrows

  const MISSING_SERVERS_MESSAGE: string := "設定ファイルに 'mcpServers' プロパティが見つかりません。"
  const MISSING_GENIMAGE_MESSAGE: string := "設定ファイルに 'mcpServers.genimage' プロパティが見つかりません。"

  /** The text written when no configuration file exists yet. */
  const DEFAULT_CONFIG_TEXT: string := "{\"mcpServers\":{}}"

  /** The document that text stands for. */
  const DEFAULT_CONFIG: Json := JObject([("mcpServers", JObject([]))])

  /** The name under which the server is launched, and the tool and argument it is called with. */
  const SERVER_NAME: string := "genimage"
  const TOOL_NAME: string := "generate_image"
  const PROMPT_ARGUMENT: string := "prompt"

  /** The configuration text read: the file's contents, or the default written in its place. */
  function ConfigText(existing: Option<string>): (text: string)
    ensures existing.Some? ==> text == existing.value
    ensures existing.None? ==> text == DEFAULT_CONFIG_TEXT
  {
    existing.GetOr(DEFAULT_CONFIG_TEXT)
  }

  // ---------------------------------------------------------------------------
  // JsonElement accessors that throw

  /** JsonElement.GetProperty: the last member called `name`; a missing name or a non-object throws. */
  function GetProperty(element: Json, name: string): (r: Read<Json>)
    ensures r.Value? <==> element.JObject? && LastMember(element.members, name).Some?
    ensures r.Value? ==> r.value == LastMember(element.members, name).value
  {
    match TryGetProperty(element, name)
    case Found(v) => Value(v)
    case _ => Threw
  }

  /** JsonElement.GetString: a string's text, null for JSON null; any other kind throws. */
  function GetString(element: Json): (r: Read<Option<string>>)
    ensures r.Value? <==> element.JString? || element.JNull?
    ensures r == Value(None) <==> element.JNull?
    ensures element.JString? ==> r == Value(Some(element.text))
  {
    match element
    case JString(text) => Value(Some(text))
    case JNull => Value(None)
    case _ => Threw
  }

  predicate StringOrNull(element: Json) {
    element.JString? || element.JNull?
  }

  /** GetString over an array's items, in order; the first item that is neither a string nor null throws. */
  function GetStrings(items: seq<Json>): (r: Read<seq<Option<string>>>)
    ensures r.Value? <==> forall i :: 0 <= i < |items| ==> StringOrNull(items[i])
    ensures r.Value? ==> |r.value| == |items|
    ensures r.Value? ==> forall i :: 0 <= i < |items| ==> Value(r.value[i]) == GetString(items[i])
  {
    if |items| == 0 then Value([])
    else
      match (GetString(items[0]), GetStrings(items[1..]))
      case (Value(first), Value(rest)) =>
        assert forall i :: 1 <= i < |items| ==> items[i] == items[1..][i - 1];
        Value([first] + rest)
      case _ =>
        assert forall i :: 1 <= i < |items| ==> items[i] == items[1..][i - 1];
        Threw
  }

  /** `command` is read with GetProperty and GetString. */
  function ReadCommand(genimage: Json): Read<Option<string>> {
    match GetProperty(genimage, "command")
    case Value(v) => GetString(v)
    case Threw => Threw
  }

  /** `args` is read with GetProperty, EnumerateArray (which throws on a non-array) and GetString per item. */
  function ReadArgs(genimage: Json): Read<seq<Option<string>>> {
    match GetProperty(genimage, "args")
    case Value(JArray(items)) => GetStrings(items)
    case _ => Threw
  }

  /**
   * The constructor's walk over the configuration document. The first failure
   * covers an object root without `mcpServers`, and nothing else; a root that
   * is not an object throws.
   */
  function Validate(root: Json): (r: ConfigOutcome)
    ensures r == MissingServers <==> root.JObject? && LastMember(root.members, "mcpServers").None?
    ensures !root.JObject? ==> r == ConfigThrows
  {
    match TryGetProperty(root, "mcpServers")
    case NotObject => ConfigThrows
    case Missing => MissingServers
    case Found(servers) =>
      match TryGetProperty(servers, SERVER_NAME)
      case NotObject => ConfigThrows
      case Missing => MissingGenimage
      case Found(genimage) =>
        match (ReadCommand(genimage), ReadArgs(genimage))
        case (Value(command), Value(args)) => Configured(command, args)
        case _ => ConfigThrows
  }

  /** The error message each failed outcome leaves behind; success leaves it empty. */
  function ErrorMessage(outcome: ConfigOutcome): string {
    match outcome
    case MissingServers => MISSING_SERVERS_MESSAGE
    case MissingGenimage => MISSING_GENIMAGE_MESSAGE
    case _ => ""
  }

  // ---------------------------------------------------------------------------
  // What the walk decides

  /** The second failure: `mcpServers` is an object without `genimage`. */
  lemma {:induction false} MissingGenimageExactly(root: Json)
    ensures Validate(root) == MissingGenimage <==>
      root.JObject? && LastMember(root.members, "mcpServers").Some? &&
      var servers := LastMember(root.members, "mcpServers").value;
      servers.JObject? && LastMember(servers.members, SERVER_NAME).None?
  {
  }

  /** A fresh installation, whose configuration is the default document, stops at the missing `genimage` entry. */
  lemma {:induction false} DefaultConfigLacksGenimage()
    ensures Validate(DEFAULT_CONFIG) == MissingGenimage
    ensures ErrorMessage(Validate(DEFAULT_CONFIG)) == MISSING_GENIMAGE_MESSAGE
  {
    var servers := JObject([]);
    assert LastMember(DEFAULT_CONFIG.members, "mcpServers") == Some(servers);
    assert TryGetProperty(servers, SERVER_NAME) == Missing;
  }

  /** Whatever parser reads the default text as the default document, a missing file ends in that failure. */
  lemma {:induction false} MissingFileLacksGenimage(parse: string -> ParseResult)
    requires parse(DEFAULT_CONFIG_TEXT) == Parsed(DEFAULT_CONFIG)
    ensures parse(ConfigText(None)).Parsed? && Validate(parse(ConfigText(None)).root) == MissingGenimage
  {
    DefaultConfigLacksGenimage();
  }

  /** Success hands on `command` and every `args` entry in order; nothing else does. */
  lemma {:induction false} ConfiguredExactly(root: Json, command: Option<string>, args: seq<Option<string>>)
    requires Validate(root) == Configured(command, args)
    ensures root.JObject? && LastMember(root.members, "mcpServers").Some?
    ensures var servers := LastMember(root.members, "mcpServers").value;
      servers.JObject? && LastMember(servers.members, SERVER_NAME).Some? &&
      var genimage := LastMember(servers.members, SERVER_NAME).value;
      GetProperty(genimage, "command").Value? && GetString(GetProperty(genimage, "command").value) == Value(command) &&
      GetProperty(genimage, "args").Value? && GetProperty(genimage, "args").value.JArray? &&
      var items := GetProperty(genimage, "args").value.items;
      |items| == |args| && forall i :: 0 <= i < |items| ==> GetString(items[i]) == Value(args[i])
  {
  }

  // ---------------------------------------------------------------------------
  // Writing a configuration

  /** How a configured string appears in the document: a JSON string, or JSON null for null. */
  function Encode(s: Option<string>): (e: Json)
    ensures GetString(e) == Value(s)
  {
    match s
    case Some(text) => JString(text)
    case None => JNull
  }

  function EncodeAll(values: seq<Option<string>>): (items: seq<Json>)
    ensures |items| == |values| && forall i :: 0 <= i < |values| ==> items[i] == Encode(values[i])
  {
    seq(|values|, i requires 0 <= i < |values| => Encode(values[i]))
  }

  /** The document naming `command` and `args` for the genimage server. */
  function ConfigFor(command: Option<string>, args: seq<Option<string>>): Json {
    JObject([("mcpServers", JObject([(SERVER_NAME, JObject([("command", Encode(command)), ("args", JArray(EncodeAll(args)))]))]))])
  }

  lemma {:induction false} GetStringsEncodeAll(args: seq<Option<string>>)
    ensures GetStrings(EncodeAll(args)) == Value(args)
  {
    var items := EncodeAll(args);
    var r := GetStrings(items);
    assert forall i :: 0 <= i < |items| ==> StringOrNull(items[i]) by {
      forall i | 0 <= i < |items| ensures StringOrNull(items[i]) {
        assert GetString(Encode(args[i])).Value?;
      }
    }
    assert r.Value?;
    forall i | 0 <= i < |args| ensures r.value[i] == args[i] {
      assert Value(r.value[i]) == GetString(Encode(args[i]));
    }
    assert r.value == args;
  }

  /** Reading back a written configuration gives the same command and arguments. */
  lemma {:induction false} ConfigRoundTrip(command: Option<string>, args: seq<Option<string>>)
    ensures Validate(ConfigFor(command, args)) == Configured(command, args)
  {
    var genimage := JObject([("command", Encode(command)), ("args", JArray(EncodeAll(args)))]);
    var servers := JObject([(SERVER_NAME, genimage)]);
    assert LastMember([("mcpServers", servers)], "mcpServers") == Some(servers);
    assert LastMember(servers.members, SERVER_NAME) == Some(genimage);
    assert LastMember(genimage.members, "args") == Some(JArray(EncodeAll(args)));
    LookupUnique(genimage.members, 0);
    GetStringsEncodeAll(args);
  }

  // ---------------------------------------------------------------------------
  // The client

  /** An MCP client connected to a launched server; its transport is not modelled. */
  datatype Handle = Handle(id: nat)

  /** What CreateClient asks the stdio transport to launch. */
  datatype Launch = Launch(command: Option<string>, arguments: seq<Option<string>>, name: string)

  /** A call of the server's tool with named arguments. */
  datatype ToolCall = ToolCall(tool: string, arguments: seq<(string, string)>)

  class PGMcpClient {
    var client: Option<Handle>
    var command: Option<string>
    var args: seq<Option<string>>
    var errorMessage: string
    var initializedSuccessfully: bool
    /** Every launch requested so far. */
    var launches: seq<Launch>

    /**
     * Reads the configuration document. A configuration whose walk throws
     * constructs no client, which the precondition stands for.
     */
    constructor(root: Json)
      requires !Validate(root).ConfigThrows?
      ensures client.None? && launches == []
      ensures initializedSuccessfully <==> Validate(root).Configured?
      ensures errorMessage == ErrorMessage(Validate(root))
      ensures Validate(root).Configured? ==> command == Validate(root).command && args == Validate(root).args
      ensures !Validate(root).Configured? ==> command == Some("") && args == []
    {
      client := None;
      command := Some("");
      args := [];
      errorMessage := "";
      initializedSuccessfully := false;
      launches := [];
      var servers := TryGetProperty(root, "mcpServers");
      if !servers.Found? {
        errorMessage := MISSING_SERVERS_MESSAGE;
      } else {
        var genimage := TryGetProperty(servers.value, SERVER_NAME);
        if !genimage.Found? {
          errorMessage := MISSING_GENIMAGE_MESSAGE;
        } else {
          command := ReadCommand(genimage.value).value;
          args := ReadArgs(genimage.value).value;
          initializedSuccessfully := true;
        }
      }
    }

    /**
     * Launches the configured server when the configuration was read. The
     * window does not wait for the launch: `connect` is the client the launch
     * has produced by the time it is next looked at, or None while the server
     * is still starting or when the launch failed, in which case the client
     * stays as it was. Without the flag nothing happens.
     */
    method CreateClient(connect: Option<Handle>)
      modifies this
      ensures initializedSuccessfully == old(initializedSuccessfully) && command == old(command) && args == old(args)
      ensures errorMessage == old(errorMessage)
      ensures old(initializedSuccessfully) ==> launches == old(launches) + [Launch(command, args, SERVER_NAME)]
      ensures old(initializedSuccessfully) && connect.Some? ==> client == connect
      ensures old(initializedSuccessfully) && connect.None? ==> client == old(client)
      ensures !old(initializedSuccessfully) ==> client == old(client) && launches == old(launches)
    {
      if initializedSuccessfully {
        launches := launches + [Launch(command, args, SERVER_NAME)];
        if connect.Some? {
          client := connect;
        }
      }
    }

    /**
     * Calls the tool once with the prompt and returns the serialized content
     * `response` stands for, or null when the client is not ready.
     */
    method Run(prompt: string, response: string) returns (call: Option<ToolCall>, reply: Option<string>)
      ensures call.Some? <==> initializedSuccessfully && client.Some?
      ensures call.Some? ==> call.value == ToolCall(TOOL_NAME, [(PROMPT_ARGUMENT, prompt)])
      ensures reply == if call.Some? then Some(response) else None
    {
      if initializedSuccessfully && client.Some? {
        return Some(ToolCall(TOOL_NAME, [(PROMPT_ARGUMENT, prompt)])), Some(response);
      }
      return None, None;
    }
  }

  /**
   * The window's start-up followed by one Generate press: the client is built
   * from the configuration, asked to launch the server, then asked to run the
   * prompt. `connect` is what the launch has produced when the button is
   * pressed (None while it is pending or after it failed). The tool is called,
   * and called with the prompt, exactly when the configuration names the
   * genimage server and the launch has produced a client; otherwise the reply
   * is null.
   */
  method StartAndRun(root: Json, connect: Option<Handle>, prompt: string, response: string)
    returns (call: Option<ToolCall>, reply: Option<string>)
    requires !Validate(root).ConfigThrows?
    ensures call.Some? <==> Validate(root).Configured? && connect.Some?
    ensures call.Some? ==> call.value == ToolCall(TOOL_NAME, [(PROMPT_ARGUMENT, prompt)]) && reply == Some(response)
    ensures call.None? ==> reply.None?
    ensures connect.None? ==> reply.None?
  {
    var mcp := new PGMcpClient(root);
    mcp.CreateClient(connect);
    call, reply := mcp.Run(prompt, response);
  }
}
