/**
 * The language-model client: which request a configuration leads to, how the
 * endpoint URLs are completed, which message becomes the image prompt, and
 * how a streamed answer is put together from `data:` lines. The network and
 * JSON are outside the model: a `data:` payload is read by a `parse`
 * parameter standing for `JSON.parse` followed by `choices[0]?.delta?.content || ''`
 * (`None` when that throws).
 */
module Llm {
  import opened Common
  import opened Strings

  /** One message of a conversation. */
  datatype ChatMessage = ChatMessage(role: string, content: string)

  /** A configured model: `kind` is the configuration's `type` field. */
  datatype LlmConfig = LlmConfig(kind: string, provider: string, baseUrl: string, modelId: string, apiKey: string)

  // ---------------------------------------------------------------------
  // chatWithLLM
  // ---------------------------------------------------------------------

  /** The two request paths of the client. */
  datatype Route = ImageGeneration | OpenAICompatible

  /** `chatWithLLM`'s dispatch. */
  function Dispatch(config: LlmConfig): (r: Result<Route>)
    ensures config.kind == "image" ==> r == Ok(ImageGeneration)
    ensures r.Err? ==> r.error == "Provider " + config.provider + " not supported"
  {
    if config.kind == "image" then Ok(ImageGeneration)
    else if config.provider == "openai" || config.provider == "custom" then Ok(OpenAICompatible)
    else Err("Provider " + config.provider + " not supported")
  }

  /** Image models always generate images; other models chat with the two known providers and fail otherwise. */
  lemma DispatchCases(config: LlmConfig)
    ensures Dispatch(config) == Ok(ImageGeneration) <==> config.kind == "image"
    ensures Dispatch(config) == Ok(OpenAICompatible)
      <==> config.kind != "image" && (config.provider == "openai" || config.provider == "custom")
    ensures Dispatch(config).Err?
      <==> config.kind != "image" && config.provider != "openai" && config.provider != "custom"
    ensures Dispatch(config).Err? ==> Contains(Dispatch(config).error, config.provider)
  {
    if Dispatch(config).Err? {
      var e := "Provider " + config.provider + " not supported";
      assert OccursAt(e, config.provider, 9) by {
        assert e[9..9 + |config.provider|] == config.provider;
      }
      IndexOfFirst(e, config.provider, 9);
    }
  }

  /** A position where `sub` occurs means `indexOf` finds an occurrence. */
  lemma IndexOfFirst(s: string, sub: string, p: nat)
    requires OccursAt(s, sub, p)
    ensures Contains(s, sub)
  {
    var r := IndexOfFrom(s, sub, 0);
    assert r == -1 ==> !OccursAt(s, sub, p);
  }

  // ---------------------------------------------------------------------
  // URLs
  // ---------------------------------------------------------------------

  /** `s.replace(/<suffix>$/, '')`: the suffix removed once when `s` ends with it. */
  function StripSuffix(s: string, suffix: string): (r: string)
    ensures EndsWith(s, suffix) ==> r + suffix == s
    ensures !EndsWith(s, suffix) ==> r == s
  {
    if EndsWith(s, suffix) then s[..|s| - |suffix|] else s
  }

  /** The path part of a chat endpoint, completed with `/chat/completions` unless it already names an endpoint. */
  function ChatPath(basePath: string): (p: string)
    ensures var clean := StripSuffix(basePath, "/");
      p == clean || p == clean + "/chat/completions"
  {
    var clean := StripSuffix(basePath, "/");
    if !Contains(clean, "/chat/") && !EndsWith(clean, "/completions") && !Contains(clean, "/api/coding")
    then clean + "/chat/completions"
    else clean
  }

  /**
   * The chat URL: the text before the first `?` is the path, the text
   * between the first and the second `?` is the query (destructuring the
   * split keeps two pieces only).
   */
  function ChatUrl(baseUrl: string): (u: string)
    ensures '?' !in baseUrl ==> u == ChatPath(baseUrl)
    ensures '?' in baseUrl ==> StartsWith(u, ChatPath(Split(baseUrl, '?')[0]) + "?")
  {
    if '?' in baseUrl then
      var pieces := Split(baseUrl, '?');
      ChatPath(pieces[0]) + "?" + (if |pieces| > 1 then pieces[1] else "")
    else ChatPath(baseUrl)
  }

  /** The image generation URL, which always names the image generation endpoint. */
  function ImageUrl(baseUrl: string): (u: string)
    ensures EndsWith(u, "/images/generations")
  {
    if EndsWith(baseUrl, "/v1") then
      EndsWithAppended(baseUrl, "/images/generations");
      baseUrl + "/images/generations"
    else if EndsWith(baseUrl, "/images/generations") then baseUrl
    else
      var stem := StripSuffix(StripSuffix(baseUrl, "/chat/completions"), "/");
      EndsWithAppended(stem, "/images/generations");
      stem + "/images/generations"
  }

  /** A string ends with what was just appended to it. */
  lemma EndsWithAppended(s: string, suffix: string)
    ensures EndsWith(s + suffix, suffix)
  {
    assert (s + suffix)[|s|..] == suffix;
  }

  /** Two suffixes that differ `k` characters from their ends cannot both end a string. */
  lemma SuffixesDiffer(s: string, a: string, b: string, k: nat)
    requires k < |a| && k < |b| && a[|a| - 1 - k] != b[|b| - 1 - k]
    requires EndsWith(s, a)
    ensures !EndsWith(s, b)
  {
    assert s[|s| - 1 - k] == s[|s| - |a|..][|a| - 1 - k];
    if |b| <= |s| {
      assert s[|s| - |b|..][|b| - 1 - k] == s[|s| - 1 - k];
    }
  }

  /** Stripping one slash from a path that does not end in two leaves none at the end. */
  lemma StripSlashOnce(s: string)
    requires !EndsWith(s, "//")
    ensures !EndsWith(StripSuffix(s, "/"), "/")
  {
    var c := StripSuffix(s, "/");
    if EndsWith(s, "/") && |s| >= 2 {
      assert s[|s| - 2..] == [s[|s| - 2], s[|s| - 1]];
      assert c[|c| - 1] == s[|s| - 2];
    }
  }

  /** The chat path always ends in an endpoint: it was completed, or it names one already. */
  lemma ChatPathEndpoint(basePath: string)
    ensures var p := ChatPath(basePath);
      EndsWith(p, "/completions") || Contains(p, "/chat/") || Contains(p, "/api/coding")
    ensures var clean := StripSuffix(basePath, "/");
      ChatPath(basePath) == clean || ChatPath(basePath) == clean + "/chat/completions"
  {
    var clean := StripSuffix(basePath, "/");
    if !Contains(clean, "/chat/") && !EndsWith(clean, "/completions") && !Contains(clean, "/api/coding") {
      CompletedEnds(clean);
      assert ChatPath(basePath) == clean + "/chat/completions";
    } else {
      assert ChatPath(basePath) == clean;
    }
  }

  lemma CompletedEnds(clean: string)
    ensures EndsWith(clean + "/chat/completions", "/completions")
  {
    AppendAssoc(clean, "/chat", "/completions");
    EndsWithAppended(clean + "/chat", "/completions");
  }

  /** A completed path is left as it is. */
  lemma CompletedStable(clean: string)
    ensures ChatPath(clean + "/chat/completions") == clean + "/chat/completions"
  {
    var p := clean + "/chat/completions";
    EndsWithAppended(clean + "/chat", "/completions");
    AppendAssoc(clean, "/chat", "/completions");
    SuffixesDiffer(p, "/completions", "/", 0);
  }

  /** Completing a chat path twice changes nothing, unless the path ends in two slashes (the second pass strips another). */
  lemma ChatPathStable(basePath: string)
    requires !EndsWith(basePath, "//")
    ensures ChatPath(ChatPath(basePath)) == ChatPath(basePath)
  {
    var clean := StripSuffix(basePath, "/");
    if ChatPath(basePath) == clean + "/chat/completions" {
      CompletedStable(clean);
    } else {
      StripSlashOnce(basePath);
    }
  }

  /** A URL without a query gets the completed path. */
  lemma ChatUrlNoQuery(baseUrl: string)
    requires '?' !in baseUrl
    ensures ChatUrl(baseUrl) == ChatPath(baseUrl)
  {
  }

  /** The query after the first `?` is kept; whatever follows a second `?` is lost. */
  lemma ChatUrlQuery(path: string, query: string, extra: seq<string>)
    requires '?' !in path && '?' !in query
    requires forall i :: 0 <= i < |extra| ==> '?' !in extra[i]
    ensures ChatUrl(Join([path, query] + extra, "?")) == ChatPath(path) + "?" + query
  {
    var parts := [path, query] + extra;
    var url := Join(parts, "?");
    forall i | 0 <= i < |parts|
      ensures '?' !in parts[i]
    {
      if i >= 2 {
        assert parts[i] == extra[i - 2];
      }
    }
    SplitJoin(parts, '?');
    assert url == path + "?" + Join(parts[1..], "?");
    assert '?' in url by {
      assert url[|path|] == '?';
    }
  }

  /** Completing an image URL twice changes nothing. */
  lemma ImageUrlStable(baseUrl: string)
    ensures ImageUrl(ImageUrl(baseUrl)) == ImageUrl(baseUrl)
  {
    var u := ImageUrl(baseUrl);
    SuffixesDiffer(u, "/images/generations", "/v1", 0);
  }

  /** A path naming no endpoint and without a trailing slash is completed with `/chat/completions`. */
  lemma ChatPathAppends(path: string)
    requires !EndsWith(path, "/") && !EndsWith(path, "/completions")
    requires !Contains(path, "/chat/") && !Contains(path, "/api/coding")
    ensures ChatPath(path) == path + "/chat/completions"
  {
  }

  /** A `/v1` base without a query gets the standard chat endpoint. */
  lemma VersionedChat(host: string)
    requires '?' !in host && !Contains(host + "/v1", "/chat/") && !Contains(host + "/v1", "/api/coding")
    ensures ChatUrl(host + "/v1") == host + "/v1/chat/completions"
  {
    var base := host + "/v1";
    assert !EndsWith(base, "/") && !EndsWith(base, "/completions") by {
      EndsWithAppended(host, "/v1");
      SuffixesDiffer(base, "/v1", "/", 0);
      SuffixesDiffer(base, "/v1", "/completions", 0);
    }
    assert '?' !in base by {
      assert forall i :: 0 <= i < |"/v1"| ==> "/v1"[i] != '?';
    }
    assert ChatUrl(base) == ChatPath(base);
    ChatPathAppends(base);
    AppendAssoc(host, "/v1", "/chat/completions");
  }

  /** A `/v1` base gets the standard image endpoint. */
  lemma VersionedImage(host: string)
    ensures ImageUrl(host + "/v1") == host + "/v1/images/generations"
  {
    EndsWithAppended(host, "/v1");
    AppendAssoc(host, "/v1", "/images/generations");
  }

  /** Pointing the image client at a chat endpoint reaches the same image endpoint as the bare base. */
  lemma ImageFromChatEndpoint(base: string)
    requires !EndsWith(base, "/v1") && !EndsWith(base, "/")
    ensures ImageUrl(base + "/chat/completions") == base + "/images/generations"
  {
    var u := base + "/chat/completions";
    EndsWithAppended(base, "/chat/completions");
    SuffixesDiffer(u, "/chat/completions", "/v1", 0);
    SuffixesDiffer(u, "/chat/completions", "/images/generations", 6);
    assert u[..|u| - |"/chat/completions"|] == base;
  }

  // ---------------------------------------------------------------------
  // generateImage
  // ---------------------------------------------------------------------

  function Reverse<T>(s: seq<T>): (r: seq<T>)
    ensures |r| == |s|
    ensures forall i :: 0 <= i < |s| ==> r[i] == s[|s| - 1 - i]
  {
    if s == [] then [] else [s[|s| - 1]] + Reverse(s[..|s| - 1])
  }

  /** `find(m => m.role === 'user')`: the first user message. */
  function FindUser(messages: seq<ChatMessage>): (r: Option<ChatMessage>)
    ensures r.Some? ==> r.value in messages && r.value.role == "user"
  {
    if messages == [] then None
    else if messages[0].role == "user" then Some(messages[0])
    else FindUser(messages[1..])
  }

  /** The image prompt: the content of the last user message of the reversed copy's first, or an error. */
  function ImagePrompt(messages: seq<ChatMessage>): (r: Result<string>)
    ensures r.Err? ==> r.error == "No user message found for image prompt"
    ensures r.Ok? ==> exists m :: m in messages && m.role == "user" && m.content == r.value
  {
    assert forall m :: m in Reverse(messages) ==> m in messages by {
      forall m | m in Reverse(messages) ensures m in messages {
        var i :| 0 <= i < |messages| && Reverse(messages)[i] == m;
        assert messages[|messages| - 1 - i] == m;
      }
    }
    match FindUser(Reverse(messages))
    case None => Err("No user message found for image prompt")
    case Some(m) => Ok(m.content)
  }

  /** No user message is found exactly when there is none. */
  lemma {:induction false} FindUserFirst(s: seq<ChatMessage>)
    ensures FindUser(s).None? <==> forall i :: 0 <= i < |s| ==> s[i].role != "user"
  {
    if s != [] && s[0].role != "user" {
      FindUserFirst(s[1..]);
      if FindUser(s).None? {
        forall i | 0 <= i < |s| ensures s[i].role != "user" {
          if i > 0 { assert s[i] == s[1..][i - 1]; }
        }
      }
    }
  }

  /** The user message found sits at the first index holding one. */
  lemma {:induction false} FindUserAt(s: seq<ChatMessage>) returns (k: nat)
    requires FindUser(s).Some?
    ensures k < |s| && s[k] == FindUser(s).value && s[k].role == "user"
    ensures forall j :: 0 <= j < k ==> s[j].role != "user"
  {
    if s[0].role == "user" {
      k := 0;
    } else {
      var i := FindUserAt(s[1..]);
      k := i + 1;
      forall j | 0 <= j < k ensures s[j].role != "user" {
        if j > 0 { assert s[j] == s[1..][j - 1]; }
      }
    }
  }

  /** The prompt is an error exactly when no message is the user's. */
  lemma ImagePromptMissing(messages: seq<ChatMessage>)
    ensures ImagePrompt(messages).Err? <==> forall i :: 0 <= i < |messages| ==> messages[i].role != "user"
  {
    var r := Reverse(messages);
    var n := |messages|;
    FindUserFirst(r);
    if FindUser(r).None? {
      forall i | 0 <= i < n ensures messages[i].role != "user" {
        assert r[n - 1 - i] == messages[i];
      }
    }
  }

  /** The prompt is the content of the last user message. */
  lemma ImagePromptIsLastUser(messages: seq<ChatMessage>) returns (i: nat)
    requires ImagePrompt(messages).Ok?
    ensures i < |messages| && messages[i].role == "user" && messages[i].content == ImagePrompt(messages).value
    ensures forall j :: i < j < |messages| ==> messages[j].role != "user"
  {
    var r := Reverse(messages);
    var n := |messages|;
    ImagePromptFound(messages);
    var k := FindUserAt(r);
    i := n - 1 - k;
    assert messages[i] == r[k];
    forall j | i < j < n ensures messages[j].role != "user" {
      assert messages[j] == r[n - 1 - j];
    }
  }

  lemma ImagePromptFound(messages: seq<ChatMessage>)
    requires ImagePrompt(messages).Ok?
    ensures FindUser(Reverse(messages)).Some?
    ensures ImagePrompt(messages).value == FindUser(Reverse(messages)).value.content
  {
  }

  /** The request body of an image generation. */
  datatype ImageBody =
    | VolcengineBody(model: string, prompt: string, sequentialImageGeneration: string, responseFormat: string,
                     size: string, stream: bool, watermark: bool)
    | OpenAIImageBody(prompt: string, model: string, n: nat, size: string, responseFormat: string)

  /** An image generation request, as far as it is fixed before the network call. */
  datatype ImageRequest = ImageRequest(url: string, authorization: string, body: ImageBody)

  /** The request `generateImage` posts, or the error it throws first. */
  function BuildImageRequest(messages: seq<ChatMessage>, config: LlmConfig): (r: Result<ImageRequest>)
    ensures r.Err? ==> r.error == "No user message found for image prompt"
    ensures r.Ok? ==> r.value.url == ImageUrl(config.baseUrl)
    ensures r.Ok? ==> r.value.authorization == "Bearer " + Trim(config.apiKey, Js)
  {
    match ImagePrompt(messages)
    case Err(e) => Err(e)
    case Ok(prompt) =>
      var url := ImageUrl(config.baseUrl);
      var modelId := Trim(config.modelId, Js);
      var body :=
        if Contains(url, "volces.com")
        then VolcengineBody(modelId, prompt, "disabled", "url", "2K", false, false)
        else OpenAIImageBody(prompt, modelId, 1, "1024x1024", "url");
      Ok(ImageRequest(url, "Bearer " + Trim(config.apiKey, Js), body))
  }

  /** The image request goes to the image endpoint with the last user prompt, in Volcengine's shape iff the URL is Volcengine's. */
  lemma ImageRequestShape(messages: seq<ChatMessage>, config: LlmConfig)
    ensures BuildImageRequest(messages, config).Err? <==> ImagePrompt(messages).Err?
    ensures BuildImageRequest(messages, config).Ok? ==>
      var req := BuildImageRequest(messages, config).value;
      EndsWith(req.url, "/images/generations")
      && req.body.prompt == ImagePrompt(messages).value
      && req.body.model == Trim(config.modelId, Js)
      && (req.body.VolcengineBody? <==> Contains(req.url, "volces.com"))
  {
  }

  // ---------------------------------------------------------------------
  // chatWithOpenAICompatible
  // ---------------------------------------------------------------------

  /** The request body of a chat: the messages reduced to role and content, and whether to stream. */
  datatype ChatBody = ChatBody(model: string, messages: seq<ChatMessage>, stream: bool)

  /** The chat request; `streaming` says whether an `onUpdate` callback was given. */
  function BuildChatBody(messages: seq<ChatMessage>, config: LlmConfig, streaming: bool): (r: ChatBody)
    ensures r.stream == streaming && r.messages == messages && r.model == config.modelId
  {
    ChatBody(config.modelId, messages, streaming)
  }

  /** One line of a streamed answer: the delta it carries, if any. */
  function LineDelta(line: string, parse: string -> Option<string>): (d: Option<string>)
    ensures d.Some? ==> StartsWith(line, "data: ") && d == parse(line[6..])
    ensures Trim(line, Js) == "" || Trim(line, Js) == "data: [DONE]" ==> d.None?
  {
    var t := Trim(line, Js);
    if t == "" || t == "data: [DONE]" then None
    else if StartsWith(line, "data: ") then parse(line[6..])
    else None
  }

  /** The line reader of a stream whose payloads `parse` reads. */
  function LineReader(parse: string -> Option<string>): string -> Option<string> {
    line => LineDelta(line, parse)
  }

  /** The deltas the lines carry, in order, as `delta` reads each line. */
  function Deltas(lines: seq<string>, delta: string -> Option<string>): seq<string> {
    if lines == [] then []
    else Deltas(lines[..|lines| - 1], delta) + Carried(delta(lines[|lines| - 1]))
  }

  /** What one line adds to the deltas. */
  function Carried(d: Option<string>): (r: seq<string>)
    ensures |r| <= 1
  {
    match d case Some(x) => [x] case None => []
  }

  /** The deltas joined. */
  function Concat(ds: seq<string>): string {
    if ds == [] then "" else Concat(ds[..|ds| - 1]) + ds[|ds| - 1]
  }

  /** What `onUpdate` receives: the content so far, after each delta. */
  function Cumulative(ds: seq<string>): (r: seq<string>)
    ensures |r| == |ds|
  {
    if ds == [] then [] else Cumulative(ds[..|ds| - 1]) + [Concat(ds)]
  }

  /** The lines of each chunk, split chunk by chunk. */
  function ChunkLines(chunks: seq<string>): seq<string> {
    if chunks == [] then [] else ChunkLines(chunks[..|chunks| - 1]) + Split(chunks[|chunks| - 1], '\n')
  }

  /** One more line processed. */
  lemma DeltasSnoc(lines: seq<string>, line: string, delta: string -> Option<string>)
    ensures delta(line).None? ==> Deltas(lines + [line], delta) == Deltas(lines, delta)
    ensures delta(line).Some? ==> Deltas(lines + [line], delta) == Deltas(lines, delta) + [delta(line).value]
  {
    assert (lines + [line])[..|lines|] == lines;
    assert Deltas(lines, delta) + [] == Deltas(lines, delta);
  }

  /** One more chunk read. */
  lemma ChunkLinesTake(chunks: seq<string>, i: nat)
    requires i < |chunks|
    ensures ChunkLines(chunks[..i + 1]) == ChunkLines(chunks[..i]) + Split(chunks[i], '\n')
  {
    assert chunks[..i + 1][..i] == chunks[..i];
  }

  /** One more delta received. */
  lemma CumulativeSnoc(ds: seq<string>, d: string)
    ensures Concat(ds + [d]) == Concat(ds) + d
    ensures Cumulative(ds + [d]) == Cumulative(ds) + [Concat(ds) + d]
  {
    assert (ds + [d])[..|ds|] == ds;
  }

  /** Each update extends the one before, and the last one is the whole answer. */
  lemma {:induction false} CumulativeGrows(ds: seq<string>)
    ensures forall k :: 0 < k < |ds| ==> StartsWith(Cumulative(ds)[k], Cumulative(ds)[k - 1])
    ensures ds != [] ==> Cumulative(ds)[|ds| - 1] == Concat(ds)
  {
    if ds != [] {
      var front := ds[..|ds| - 1];
      CumulativeGrows(front);
      assert front + [ds[|ds| - 1]] == ds;
      CumulativeSnoc(front, ds[|ds| - 1]);
      if |front| > 0 {
        var c := Cumulative(ds);
        assert c[|ds| - 2] == Concat(front);
        assert c[|ds| - 1] == Concat(front) + ds[|ds| - 1];
        assert c[|ds| - 1][..|Concat(front)|] == Concat(front);
      }
    }
  }

  /** Blank lines and the `[DONE]` marker carry nothing. */
  lemma SkippedLines(lines: seq<string>, line: string, parse: string -> Option<string>)
    requires Trim(line, Js) == "" || Trim(line, Js) == "data: [DONE]"
    ensures Deltas(lines + [line], LineReader(parse)) == Deltas(lines, LineReader(parse))
  {
    DeltasSnoc(lines, line, LineReader(parse));
  }

  /** The lines of one chunk, read one after the other. */
  method ReadLines(lines: seq<string>, delta: string -> Option<string>, ghost before: seq<string>,
                   full0: string, updates0: seq<string>) returns (full: string, updates: seq<string>)
    requires full0 == Concat(Deltas(before, delta)) && updates0 == Cumulative(Deltas(before, delta))
    ensures full == Concat(Deltas(before + lines, delta))
    ensures updates == Cumulative(Deltas(before + lines, delta))
  {
    full, updates := full0, updates0;
    TakeEnds(before, lines);
    for j := 0 to |lines|
      invariant full == Concat(Deltas(before + lines[..j], delta))
      invariant updates == Cumulative(Deltas(before + lines[..j], delta))
    {
      ghost var ds := Deltas(before + lines[..j], delta);
      TakeSnoc(before, lines, j);
      DeltasSnoc(before + lines[..j], lines[j], delta);
      var d := delta(lines[j]);
      if d.Some? {
        CumulativeSnoc(ds, d.value);
        full := full + d.value;
        updates := updates + [full];
      }
    }
  }

  /** The streaming loop, as written: each chunk is split into lines on its own. */
  method ReadStream(chunks: seq<string>, parse: string -> Option<string>) returns (full: string, updates: seq<string>)
    ensures full == Concat(Deltas(ChunkLines(chunks), LineReader(parse)))
    ensures updates == Cumulative(Deltas(ChunkLines(chunks), LineReader(parse)))
  {
    var delta := LineReader(parse);
    full := "";
    updates := [];
    for i := 0 to |chunks|
      invariant full == Concat(Deltas(ChunkLines(chunks[..i]), delta))
      invariant updates == Cumulative(Deltas(ChunkLines(chunks[..i]), delta))
    {
      var lines := Split(chunks[i], '\n');
      full, updates := ReadLines(lines, delta, ChunkLines(chunks[..i]), full, updates);
      ChunkLinesTake(chunks, i);
    }
    TakeAll(chunks);
  }

  /** The complete lines of what has arrived: every piece of the split but the last. */
  function CompleteLines(text: string): seq<string> {
    var ls := Split(text, '\n');
    ls[..|ls| - 1]
  }

  /** The text after the last line break, still waiting for the rest of its line. */
  function Pending(text: string): string {
    var ls := Split(text, '\n');
    ls[|ls| - 1]
  }

  /** All of `s` but its last element, after a prefix. */
  lemma DropLastAppend<T>(p: seq<T>, s: seq<T>)
    requires s != []
    ensures (p + s)[..|p + s| - 1] == p + s[..|s| - 1] && (p + s)[|p + s| - 1] == s[|s| - 1]
  {
  }

  /** A chunk arriving completes the pending line's continuation and leaves a new pending piece. */
  lemma PendingStep(text: string, chunk: string)
    ensures CompleteLines(text + chunk) == CompleteLines(text) + CompleteLines(Pending(text) + chunk)
    ensures Pending(text + chunk) == Pending(Pending(text) + chunk)
  {
    SplitAppendLast(text, chunk, '\n');
    DropLastAppend(CompleteLines(text), Split(Pending(text) + chunk, '\n'));
  }

  /** The complete lines and the pending piece make up the split. */
  lemma PendingLast(text: string)
    ensures CompleteLines(text) + [Pending(text)] == Split(text, '\n')
  {
    var ls := Split(text, '\n');
    assert ls[..|ls| - 1] + [ls[|ls| - 1]] == ls;
  }

  /** One more chunk joined. */
  lemma ConcatTake(chunks: seq<string>, i: nat)
    requires i < |chunks|
    ensures Concat(chunks[..i + 1]) == Concat(chunks[..i]) + chunks[i]
  {
    assert chunks[..i + 1][..i] == chunks[..i];
  }

  /**
   * The streaming loop with a carry-over buffer: the text after the last
   * line break waits for the next chunk, so a line is read only once it is
   * complete, wherever the network cut the chunks.
   */
  method ReadStreamBuffered(chunks: seq<string>, parse: string -> Option<string>)
    returns (full: string, updates: seq<string>)
    ensures full == Concat(Deltas(Split(Concat(chunks), '\n'), LineReader(parse)))
    ensures updates == Cumulative(Deltas(Split(Concat(chunks), '\n'), LineReader(parse)))
  {
    var delta := LineReader(parse);
    var buffer := "";
    full := "";
    updates := [];
    for i := 0 to |chunks|
      invariant buffer == Pending(Concat(chunks[..i]))
      invariant full == Concat(Deltas(CompleteLines(Concat(chunks[..i])), delta))
      invariant updates == Cumulative(Deltas(CompleteLines(Concat(chunks[..i])), delta))
    {
      ghost var text := Concat(chunks[..i]);
      var lines := Split(buffer + chunks[i], '\n');
      full, updates := ReadLines(lines[..|lines| - 1], delta, CompleteLines(text), full, updates);
      buffer := lines[|lines| - 1];
      PendingStep(text, chunks[i]);
      ConcatTake(chunks, i);
    }
    TakeAll(chunks);
    full, updates := ReadLines([buffer], delta, CompleteLines(Concat(chunks)), full, updates);
    PendingLast(Concat(chunks));
  }

  /** A `data:` line of the form `data: <payload>` hands its payload to `parse`. */
  lemma DataLine(line: string, payload: string, parse: string -> Option<string>)
    requires line == "data: " + payload && payload != [] && !IsSpace(payload[|payload| - 1], Js)
    requires payload != "[DONE]"
    ensures LineDelta(line, parse) == parse(payload)
  {
    TrimIdentity(line, Js);
    assert line[..6] == "data: ";
    assert line[6..] == payload;
    assert ("data: [DONE]")[6..] == "[DONE]";
  }

  /** A line that does not start with `data: ` carries nothing. */
  lemma OtherLine(line: string, parse: string -> Option<string>)
    requires |line| < 6
    ensures LineDelta(line, parse) == None
  {
  }

  /** Two chunks, `data: ab` and `c` with a line break: what each reader gets from them. */
  lemma CutLineSetup(a: string, b: string, whole: string)
    requires a == "data: ab" && b == "c\n" && whole == "data: abc"
    ensures ChunkLines([a, b]) == [a, "c", ""]
    ensures Split(Concat([a, b]), '\n') == [whole, ""]
  {
    SplitNoSep(a, '\n');
    LineAndBreak("c", b);
    TwoChunks(a, b);
    TwoChunksText(a, b);
    assert a + b == whole + "\n";
    LineAndBreak(whole, a + b);
  }

  /** A line without a break, followed by one break, splits into the line and an empty rest. */
  lemma LineAndBreak(x: string, t: string)
    requires '\n' !in x && t == x + "\n"
    ensures Split(t, '\n') == [x, ""]
  {
    assert t == x + ['\n'] + "";
    SplitConcat(x, "", '\n');
    SplitNoSep(x, '\n');
  }

  /** Two chunks give the lines of each, in order. */
  lemma TwoChunks(a: string, b: string)
    ensures ChunkLines([a, b]) == Split(a, '\n') + Split(b, '\n')
  {
    assert [a, b][..1] == [a] && [a][..0] == [];
    assert ChunkLines([a]) == [] + Split(a, '\n');
  }

  /** Two chunks give the text of both. */
  lemma TwoChunksText(a: string, b: string)
    ensures Concat([a, b]) == a + b
  {
    assert [a, b][..1] == [a] && [a][..0] == [];
    assert Concat([a]) == "" + a;
  }

  /** Three lines none of which carries a delta. */
  lemma NoDeltas(l1: string, l2: string, l3: string, delta: string -> Option<string>)
    requires delta(l1).None? && delta(l2).None? && delta(l3).None?
    ensures Deltas([l1, l2, l3], delta) == []
  {
    DeltasSnoc([], l1, delta);
    DeltasSnoc([l1], l2, delta);
    DeltasSnoc([l1, l2], l3, delta);
    assert [] + [l1] == [l1] && [l1] + [l2] == [l1, l2] && [l1, l2] + [l3] == [l1, l2, l3];
  }

  /** Two lines of which only the first carries a delta. */
  lemma OneDelta(l1: string, l2: string, delta: string -> Option<string>, d: string)
    requires delta(l1) == Some(d) && delta(l2).None?
    ensures Concat(Deltas([l1, l2], delta)) == d
  {
    DeltasSnoc([], l1, delta);
    DeltasSnoc([l1], l2, delta);
    assert [] + [l1] == [l1] && [l1] + [l2] == [l1, l2];
    CumulativeSnoc([], d);
  }

  /** As written, none of the three lines `data: ab`, `c` and the empty one carries a delta. */
  lemma CutLineAsWritten(a: string, c: string, e: string, parse: string -> Option<string>)
    requires a == "data: ab" && c == "c" && e == "" && parse("ab") == None
    ensures Deltas([a, c, e], LineReader(parse)) == []
  {
    DataLine(a, "ab", parse);
    OtherLine(c, parse);
    OtherLine(e, parse);
    NoDeltas(a, c, e, LineReader(parse));
  }

  /** Buffered, the whole line `data: abc` carries its delta. */
  lemma CutLineBuffered(whole: string, e: string, parse: string -> Option<string>)
    requires whole == "data: abc" && e == "" && parse("abc") == Some("abc")
    ensures Concat(Deltas([whole, e], LineReader(parse))) == "abc"
  {
    DataLine(whole, "abc", parse);
    OtherLine(e, parse);
    OneDelta(whole, e, LineReader(parse), "abc");
  }

  /**
   * A `data:` line cut between two chunks is lost as written: its first
   * half fails to parse and its second half is not a `data:` line. The
   * buffered reader reads the whole line.
   */
  lemma CutLineLost(parse: string -> Option<string>)
    requires parse("ab") == None && parse("abc") == Some("abc")
    ensures Concat(Deltas(ChunkLines(["data: ab", "c\n"]), LineReader(parse))) == ""
    ensures Concat(Deltas(Split(Concat(["data: ab", "c\n"]), '\n'), LineReader(parse))) == "abc"
  {
    CutLineSetup("data: ab", "c\n", "data: abc");
    CutLineAsWritten("data: ab", "c", "", parse);
    CutLineBuffered("data: abc", "", parse);
  }
}
