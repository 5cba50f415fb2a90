/** The fallback half of api/chatbot.py: the choice of generation settings by
    mode, the messages sent to the chat model, the blocking fallback
    `get_api_fallback_response`, the priority of `get_response`, and the
    chunks `stream_api_response` yields once the local answer is known. */
module Fallback {
  import opened Wrappers
  import opened TextNormalizer
  import opened Provider

  // ---------------------------------------------------------------------
  // Fixed texts

  const OfflineReply: string := "Desculpe, meu cérebro externo está offline no momento."
  const ApologyReply: string := "Tive um problema temporário ao falar com o modelo de IA. Tente novamente em instantes."
  const DefaultReply: string := "Desculpe, não consegui entender sua pergunta. Pode tentar reformulá-la?"
  const StreamOffline: string := "Meu cérebro externo está offline no momento."
  const StreamFailure: string := "[Falha temporária no streaming]"

  /** The system prompt of the default ("short") mode. */
  const ConcisePrompt: string :=
    "Você é um assistente para estudantes de programação. "
    + "Responda SEMPRE de forma concisa e direta (até ~150-200 palavras), "
    + "com início, meio e fim claros. Use tópicos curtos quando apropriado e inclua um fechamento rápido. "
    + "Evite rodeios, citação excessiva e conteúdo irrelevante. Se a pergunta pedir um resumo, seja ainda mais breve."

  /** The system prompt of the "long" mode. */
  const LongPrompt: string :=
    "Você é um assistente para estudantes de programação. "
    + "Responda de forma clara, estruturada e completa, porém objetiva. Use seções e exemplos quando necessário. "
    + "Finalize com um resumo curto do que foi respondido."

  // ---------------------------------------------------------------------
  // Generation settings by mode

  datatype Generation = Generation(temperature: real, maxTokens: nat, prompt: string)

  /** `mode or "short"`: None and the empty string both mean "short". */
  function ModeName(mode: Option<string>): string {
    if mode.None? || mode.value == "" then "short" else mode.value
  }

  /** `(mode or "short").lower() == "long"`. No character outside ASCII
      lowercases to one of `l`, `o`, `n`, `g`, so ASCII lowercasing decides
      this comparison exactly as `str.lower` does. */
  predicate IsLong(mode: Option<string>) {
    Lower(ModeName(mode)) == "long"
  }

  function Settings(mode: Option<string>): Generation {
    if IsLong(mode) then Generation(0.3, 600, LongPrompt) else Generation(0.2, 300, ConcisePrompt)
  }

  /** The mode test both chat paths make before sending. */
  method ModeSettings(mode: Option<string>) returns (temperature: real, maxTokens: nat, prompt: string)
    ensures Generation(temperature, maxTokens, prompt) == Settings(mode)
  {
    if Lower(ModeName(mode)) == "long" {
      temperature, maxTokens, prompt := 0.3, 600, LongPrompt;
    } else {
      temperature, maxTokens, prompt := 0.2, 300, ConcisePrompt;
    }
  }

  /** The long settings are chosen exactly for the four letters of "long" in
      any mix of cases; everything else, None and "" included, gets the
      concise settings. */
  lemma SettingsByMode(m: string)
    ensures Settings(Some(m)) == (if |m| == 4 && forall i :: 0 <= i < 4 ==> LowerChar(m[i]) == "long"[i]
      then Generation(0.3, 600, LongPrompt) else Generation(0.2, 300, ConcisePrompt))
  {
    if |m| == 4 && forall i :: 0 <= i < 4 ==> LowerChar(m[i]) == "long"[i] {
      assert Lower(m) == "long";
    }
  }

  lemma DefaultModeIsConcise()
    ensures Settings(None) == Settings(Some("")) == Settings(Some("short")) == Generation(0.2, 300, ConcisePrompt)
  {
    assert Lower("short") == "short";
  }

  // ---------------------------------------------------------------------
  // History

  /** One history item, a dict of strings. */
  type HistoryItem = map<string, string>

  /** `history[-6:]`: the last six items, or all of them when there are fewer. */
  function Recent(h: seq<HistoryItem>): (r: seq<HistoryItem>)
    ensures |r| <= 6 && |r| <= |h| && r == h[|h| - |r|..]
    ensures |r| < 6 ==> r == h
  {
    if |h| <= 6 then h else h[|h| - 6..]
  }

  /** `{"role": m.get("role", "user"), "content": m.get("content", "")}`. */
  function AsMessage(m: HistoryItem): Message {
    Message(if "role" in m then m["role"] else "user", if "content" in m then m["content"] else "")
  }

  /** `role in ("user", "assistant") and content`. */
  predicate Forwarded(msg: Message) {
    (msg.role == "user" || msg.role == "assistant") && msg.content != ""
  }

  /** The messages the history loop appends, in order. */
  function ForwardedItems(items: seq<HistoryItem>): seq<Message>
    decreases |items|
  {
    if items == [] then []
    else
      var m := AsMessage(items[|items| - 1]);
      ForwardedItems(items[..|items| - 1]) + (if Forwarded(m) then [m] else [])
  }

  /** A message is forwarded exactly when it comes from an item that passes the filter. */
  lemma ForwardedMembers(items: seq<HistoryItem>)
    ensures forall msg :: msg in ForwardedItems(items) ==> Forwarded(msg) && exists j :: 0 <= j < |items| && AsMessage(items[j]) == msg
    ensures forall j :: 0 <= j < |items| && Forwarded(AsMessage(items[j])) ==> AsMessage(items[j]) in ForwardedItems(items)
  {
    ForwardedSound(items);
    ForwardedComplete(items);
  }

  lemma {:induction false} ForwardedSound(items: seq<HistoryItem>)
    ensures forall msg :: msg in ForwardedItems(items) ==> Forwarded(msg) && exists j :: 0 <= j < |items| && AsMessage(items[j]) == msg
    decreases |items|
  {
    if items != [] {
      var init := items[..|items| - 1];
      ForwardedSound(init);
      assert forall j :: 0 <= j < |init| ==> init[j] == items[j];
    }
  }

  lemma {:induction false} ForwardedComplete(items: seq<HistoryItem>)
    ensures forall j :: 0 <= j < |items| && Forwarded(AsMessage(items[j])) ==> AsMessage(items[j]) in ForwardedItems(items)
    decreases |items|
  {
    if items != [] {
      var init := items[..|items| - 1];
      ForwardedComplete(init);
      assert forall j :: 0 <= j < |init| ==> init[j] == items[j];
    }
  }

  /** The filter keeps the items' order: it splits over concatenation. */
  lemma {:induction false} ForwardedAppend(a: seq<HistoryItem>, b: seq<HistoryItem>)
    ensures ForwardedItems(a + b) == ForwardedItems(a) + ForwardedItems(b)
    decreases |b|
  {
    if b == [] {
      assert a + b == a;
    } else {
      var init := b[..|b| - 1];
      assert (a + b)[..|a + b| - 1] == a + init;
      ForwardedAppend(a, init);
    }
  }

  lemma {:induction false} ForwardedLength(items: seq<HistoryItem>)
    ensures |ForwardedItems(items)| <= |items|
    decreases |items|
  {
    if items != [] {
      ForwardedLength(items[..|items| - 1]);
    }
  }

  /** The history part of every request: at most six messages, none of them a system message. */
  function HistoryMessages(history: Option<seq<HistoryItem>>): seq<Message> {
    ForwardedItems(Recent(history.GetOr([])))
  }

  /** The history loop of both `get_api_fallback_response` and `stream_api_response`. */
  method CollectHistory(history: Option<seq<HistoryItem>>) returns (msgs: seq<Message>)
    ensures msgs == HistoryMessages(history)
  {
    var trimmed := Recent(history.GetOr([]));
    msgs := [];
    var i := 0;
    while i < |trimmed|
      invariant 0 <= i <= |trimmed|
      invariant msgs == ForwardedItems(trimmed[..i])
    {
      var m := trimmed[i];
      var role := if "role" in m then m["role"] else "user";
      var content := if "content" in m then m["content"] else "";
      assert trimmed[..i + 1][..i] == trimmed[..i];
      if (role == "user" || role == "assistant") && content != "" {
        msgs := msgs + [Message(role, content)];
      }
      i := i + 1;
    }
    assert trimmed[..i] == trimmed;
  }

  // ---------------------------------------------------------------------
  // Requests

  function System(prompt: string): Message {
    Message("system", prompt)
  }

  function UserTurn(input: string): Message {
    Message("user", input)
  }

  /** The blocking request: the messages start with the concise system
      prompt, then the mode's prompt is put in front of them, so two
      system messages are sent. */
  function BlockingRequest(input: string, history: Option<seq<HistoryItem>>, mode: Option<string>): Request {
    var g := Settings(mode);
    var messages := [System(ConcisePrompt)] + HistoryMessages(history) + [UserTurn(input)];
    Request(ChatModel, [System(g.prompt)] + messages, g.temperature, g.maxTokens, false)
  }

  /** The streaming request: one system message, the mode's prompt. */
  function StreamingRequest(input: string, history: Option<seq<HistoryItem>>, mode: Option<string>): Request {
    var g := Settings(mode);
    Request(ChatModel, [System(g.prompt)] + HistoryMessages(history) + [UserTurn(input)], g.temperature, g.maxTokens, true)
  }

  function SystemCount(ms: seq<Message>): nat
    decreases |ms|
  {
    if ms == [] then 0 else SystemCount(ms[..|ms| - 1]) + (if ms[|ms| - 1].role == "system" then 1 else 0)
  }

  lemma {:induction false} SystemCountAppend(a: seq<Message>, b: seq<Message>)
    ensures SystemCount(a + b) == SystemCount(a) + SystemCount(b)
    decreases |b|
  {
    if b == [] {
      assert a + b == a;
    } else {
      assert (a + b)[..|a + b| - 1] == a + b[..|b| - 1];
      SystemCountAppend(a, b[..|b| - 1]);
    }
  }

  lemma {:induction false} NoSystemInHistory(items: seq<HistoryItem>)
    ensures SystemCount(ForwardedItems(items)) == 0
    decreases |items|
  {
    if items != [] {
      var init := items[..|items| - 1];
      var m := AsMessage(items[|items| - 1]);
      NoSystemInHistory(init);
      SystemCountAppend(ForwardedItems(init), if Forwarded(m) then [m] else []);
      assert SystemCount([m]) == SystemCount([]) + (if m.role == "system" then 1 else 0);
    }
  }

  /** The history messages are at most six, each forwarded from one of the last six items. */
  lemma HistoryMessagesShape(history: Option<seq<HistoryItem>>)
    ensures |HistoryMessages(history)| <= 6
    ensures forall msg :: msg in HistoryMessages(history) ==> Forwarded(msg) && msg.role != "system"
    ensures SystemCount(HistoryMessages(history)) == 0
  {
    var r := Recent(history.GetOr([]));
    ForwardedLength(r);
    ForwardedMembers(r);
    NoSystemInHistory(r);
  }

  lemma SystemHead(p: string, q: string)
    ensures SystemCount([System(p)]) == 1
    ensures SystemCount([System(p), System(q)]) == 2
  {
    assert [System(p)][..0] == [];
    assert [System(p), System(q)][..1] == [System(p)];
  }

  /** History and the user turn add no system message to those in front of them. */
  lemma SystemFramed(head: seq<Message>, history: Option<seq<HistoryItem>>, input: string)
    ensures SystemCount(head + HistoryMessages(history) + [UserTurn(input)]) == SystemCount(head)
  {
    var h := HistoryMessages(history);
    HistoryMessagesShape(history);
    SystemCountAppend(head, h);
    SystemCountAppend(head + h, [UserTurn(input)]);
    assert [UserTurn(input)][..0] == [];
  }

  /** The mode's prompt comes first, the concise prompt second, then the
      history, then the input as a user message; two system messages in all. */
  lemma BlockingRequestShape(input: string, history: Option<seq<HistoryItem>>, mode: Option<string>)
    ensures var req := BlockingRequest(input, history, mode);
      && req.messages == [System(Settings(mode).prompt), System(ConcisePrompt)] + HistoryMessages(history) + [UserTurn(input)]
      && SystemCount(req.messages) == 2
      && req.temperature == Settings(mode).temperature && req.maxTokens == Settings(mode).maxTokens
      && !req.stream && req.model == ChatModel
  {
    var g := Settings(mode);
    SystemHead(g.prompt, ConcisePrompt);
    SystemFramed([System(g.prompt), System(ConcisePrompt)], history, input);
    PrependFramed(System(g.prompt), System(ConcisePrompt), HistoryMessages(history), UserTurn(input));
  }

  lemma PrependFramed(x: Message, y: Message, h: seq<Message>, u: Message)
    ensures [x] + ([y] + h + [u]) == [x, y] + h + [u]
  {
    assert [x, y] == [x] + [y];
  }

  /** The streaming request sends the mode's prompt as its only system message. */
  lemma StreamingRequestShape(input: string, history: Option<seq<HistoryItem>>, mode: Option<string>)
    ensures var req := StreamingRequest(input, history, mode);
      && req.messages == [System(Settings(mode).prompt)] + HistoryMessages(history) + [UserTurn(input)]
      && SystemCount(req.messages) == 1
      && req.temperature == Settings(mode).temperature && req.maxTokens == Settings(mode).maxTokens
      && req.stream && req.model == ChatModel
  {
    var g := Settings(mode);
    SystemHead(g.prompt, g.prompt);
    SystemFramed([System(g.prompt)], history, input);
  }

  // ---------------------------------------------------------------------
  // The blocking fallback

  /** A text answer together with the chat requests sent to produce it. */
  datatype Reply = Reply(text: string, calls: seq<Request>)

  /** `get_api_fallback_response`: with no key, the offline text and no
      call; otherwise one request, whose content comes back stripped, or the
      apology when the call raised or returned no content (`None.strip()`
      raises inside the same `try`). */
  function ApiFallback(p: Provider, input: string, history: Option<seq<HistoryItem>>, mode: Option<string>): Reply {
    if !p.hasKey then Reply(OfflineReply, [])
    else
      var req := BlockingRequest(input, history, mode);
      match p.complete(req)
      case Text(c) => Reply(Trim(c), [req])
      case _ => Reply(ApologyReply, [req])
  }

  /** `get_api_fallback_response` as the source builds its request. */
  method GetApiFallbackResponse(p: Provider, input: string, history: Option<seq<HistoryItem>>, mode: Option<string>)
    returns (r: Reply)
    ensures r == ApiFallback(p, input, history, mode)
  {
    if !p.hasKey {
      return Reply(OfflineReply, []);
    }
    var messages := [System(ConcisePrompt)];
    var kept := CollectHistory(history);
    messages := messages + kept;
    messages := messages + [UserTurn(input)];
    var temperature, maxTokens, prompt := ModeSettings(mode);
    messages := [System(prompt)] + messages;
    var req := Request(ChatModel, messages, temperature, maxTokens, false);
    match p.complete(req)
    case Text(c) => r := Reply(Trim(c), [req]);
    case _ => r := Reply(ApologyReply, [req]);
  }

  /** What `strip` leaves has no whitespace at either end. */
  predicate Stripped(s: string) {
    s == [] || (!IsSpace(s[0]) && !IsSpace(s[|s| - 1]))
  }

  /** The fallback calls the model exactly when a key is set, and then
      once; what the model says comes back stripped, and a call that raised
      or gave no content gives the apology. */
  lemma ApiFallbackShape(p: Provider, input: string, history: Option<seq<HistoryItem>>, mode: Option<string>)
    ensures var r := ApiFallback(p, input, history, mode);
      && (r.calls == [] <==> !p.hasKey)
      && (p.hasKey ==> r.calls == [BlockingRequest(input, history, mode)])
      && (!p.hasKey ==> r.text == OfflineReply)
      && (p.hasKey ==> r.text == ApologyReply || Stripped(r.text))
      && (p.hasKey && p.complete(BlockingRequest(input, history, mode)).Text? ==>
            r.text == Trim(p.complete(BlockingRequest(input, history, mode)).content))
      && (p.hasKey && !p.complete(BlockingRequest(input, history, mode)).Text? ==> r.text == ApologyReply)
  {
    if p.hasKey && p.complete(BlockingRequest(input, history, mode)).Text? {
      TrimIsStripped(p.complete(BlockingRequest(input, history, mode)).content);
    }
  }

  lemma TrimIsStripped(s: string)
    ensures Stripped(Trim(s))
  {
    var t := TrimStart(s);
    var r := TrimEnd(t);
    if r != [] {
      assert r[0] == t[0];
    }
  }

  // ---------------------------------------------------------------------
  // Orchestration

  /** `get_response` once the local answer is known: a non-empty local
      answer is returned and the model is not called; otherwise the
      fallback's text if it is not empty, else the default text. */
  function Respond(p: Provider, local: Option<string>, input: string, history: Option<seq<HistoryItem>>, mode: Option<string>): Reply {
    if local.Some? && local.value != "" then Reply(local.value, [])
    else
      var f := ApiFallback(p, input, history, mode);
      Reply(if f.text != "" then f.text else DefaultReply, f.calls)
  }

  /** The part of `get_response` after the local lookup. */
  method RespondAfterLocal(p: Provider, local: Option<string>, input: string, history: Option<seq<HistoryItem>>, mode: Option<string>)
    returns (r: Reply)
    ensures r == Respond(p, local, input, history, mode)
  {
    if local.Some? && local.value != "" {
      return Reply(local.value, []);
    }
    var api := GetApiFallbackResponse(p, input, history, mode);
    if api.text != "" {
      return api;
    }
    r := Reply(DefaultReply, api.calls);
  }

  /** A local answer wins and costs no call; without one the model is asked
      only when a key is set; the answer is never empty. */
  lemma RespondShape(p: Provider, local: Option<string>, input: string, history: Option<seq<HistoryItem>>, mode: Option<string>)
    ensures var r := Respond(p, local, input, history, mode);
      && r.text != ""
      && (local.Some? && local.value != "" ==> r == Reply(local.value, []))
      && (!(local.Some? && local.value != "") ==> r.calls == ApiFallback(p, input, history, mode).calls)
      && (r.calls != [] <==> !(local.Some? && local.value != "") && p.hasKey)
  {
    ApiFallbackShape(p, input, history, mode);
  }

  // ---------------------------------------------------------------------
  // Streaming

  /** `delta or ""` for each chunk, the empty ones skipped. */
  function Yielded(ds: seq<Option<string>>): seq<string>
    decreases |ds|
  {
    if ds == [] then []
    else
      var d := ds[|ds| - 1].GetOr("");
      Yielded(ds[..|ds| - 1]) + (if d != "" then [d] else [])
  }

  function Flatten(ss: seq<string>): string
    decreases |ss|
  {
    if ss == [] then [] else Flatten(ss[..|ss| - 1]) + ss[|ss| - 1]
  }

  function Contents(ds: seq<Option<string>>): seq<string>
    decreases |ds|
  {
    if ds == [] then [] else Contents(ds[..|ds| - 1]) + [ds[|ds| - 1].GetOr("")]
  }

  lemma {:induction false} FlattenAppend(a: seq<string>, b: seq<string>)
    ensures Flatten(a + b) == Flatten(a) + Flatten(b)
    decreases |b|
  {
    if b == [] {
      assert a + b == a;
    } else {
      var init, last := b[..|b| - 1], b[|b| - 1];
      assert (a + b)[..|a + b| - 1] == a + init;
      assert (a + b)[|a + b| - 1] == last;
      FlattenAppend(a, init);
      assert Flatten(a + b) == Flatten(a) + Flatten(init) + last;
      assert Flatten(b) == Flatten(init) + last;
    }
  }

  lemma FlattenOne(s: string)
    ensures Flatten([s]) == s
  {
    assert [s][..0] == [];
  }

  /** Skipping the empty deltas loses no text, and no yielded chunk is empty. */
  lemma {:induction false} YieldedKeepsText(ds: seq<Option<string>>)
    ensures Flatten(Yielded(ds)) == Flatten(Contents(ds))
    ensures forall k :: 0 <= k < |Yielded(ds)| ==> Yielded(ds)[k] != ""
    decreases |ds|
  {
    if ds != [] {
      var init := ds[..|ds| - 1];
      var d := ds[|ds| - 1].GetOr("");
      YieldedKeepsText(init);
      FlattenAppend(Yielded(init), if d != "" then [d] else []);
      FlattenAppend(Contents(init), [d]);
      FlattenOne(d);
      if d == "" {
        assert Flatten([]) == "";
      }
    }
  }

  /** The loop `for chunk in stream`, with the failure chunk of the
      `except` clause after whatever was yielded before the stream raised. */
  method StreamDeltas(s: ProviderStream) returns (chunks: seq<string>)
    ensures chunks == Yielded(s.deltas) + (if s.fails then [StreamFailure] else [])
  {
    chunks := [];
    var i := 0;
    while i < |s.deltas|
      invariant 0 <= i <= |s.deltas|
      invariant chunks == Yielded(s.deltas[..i])
    {
      assert s.deltas[..i + 1][..i] == s.deltas[..i];
      var delta := s.deltas[i].GetOr("");
      if delta != "" {
        chunks := chunks + [delta];
      }
      i := i + 1;
    }
    assert s.deltas[..i] == s.deltas;
    if s.fails {
      chunks := chunks + [StreamFailure];
    }
  }

  /** What `stream_api_response` yields once the local answer is known. */
  function StreamChunks(p: Provider, local: Option<string>, input: string, history: Option<seq<HistoryItem>>, mode: Option<string>): seq<string> {
    if local.Some? && local.value != "" then [local.value]
    else if !p.hasKey then [StreamOffline]
    else
      var s := p.openStream(StreamingRequest(input, history, mode));
      Yielded(s.deltas) + (if s.fails then [StreamFailure] else [])
  }

  /** The request `stream_api_response` sends: the mode's prompt, the forwarded history and the input, with the mode's settings. */
  method StreamingRequestOf(input: string, history: Option<seq<HistoryItem>>, mode: Option<string>) returns (req: Request)
    ensures req == StreamingRequest(input, history, mode)
  {
    var kept := CollectHistory(history);
    var temperature, maxTokens, prompt := ModeSettings(mode);
    req := Request(ChatModel, [System(prompt)] + kept + [UserTurn(input)], temperature, maxTokens, true);
  }

  /** The part of `stream_api_response` after the local lookup: all it yields. */
  method StreamAfterLocal(p: Provider, local: Option<string>, input: string, history: Option<seq<HistoryItem>>, mode: Option<string>)
    returns (chunks: seq<string>)
    ensures chunks == StreamChunks(p, local, input, history, mode)
  {
    if local.Some? && local.value != "" {
      return [local.value];
    }
    if !p.hasKey {
      return [StreamOffline];
    }
    var req := StreamingRequestOf(input, history, mode);
    var stream := p.openStream(req);
    chunks := StreamDeltas(stream);
  }

  /** A local hit and a missing key each yield exactly one chunk; otherwise
      the chunks are the non-empty deltas in order, ending with the failure
      text exactly when the stream raised; no chunk is ever empty. */
  lemma StreamChunksShape(p: Provider, local: Option<string>, input: string, history: Option<seq<HistoryItem>>, mode: Option<string>)
    ensures var out := StreamChunks(p, local, input, history, mode);
      && (forall k :: 0 <= k < |out| ==> out[k] != "")
      && (local.Some? && local.value != "" ==> out == [local.value])
      && (!(local.Some? && local.value != "") && !p.hasKey ==> out == [StreamOffline])
      && (!(local.Some? && local.value != "") && p.hasKey ==>
            var s := p.openStream(StreamingRequest(input, history, mode));
            && Flatten(out) == Flatten(Contents(s.deltas)) + (if s.fails then StreamFailure else "")
            && (s.fails <==> |out| > 0 && out[|out| - 1] == StreamFailure && out[..|out| - 1] == Yielded(s.deltas)))
  {
    if !(local.Some? && local.value != "") && p.hasKey {
      StreamedText(p.openStream(StreamingRequest(input, history, mode)), StreamFailure);
    } else if !(local.Some? && local.value != "") {
      assert |StreamOffline| > 0;
    }
  }

  /** The chunks of a provider stream followed, on failure, by the text `fail`. */
  lemma StreamedText(s: ProviderStream, fail: string)
    requires fail != ""
    ensures var out := Yielded(s.deltas) + (if s.fails then [fail] else []);
      && (forall k :: 0 <= k < |out| ==> out[k] != "")
      && Flatten(out) == Flatten(Contents(s.deltas)) + (if s.fails then fail else "")
      && (s.fails <==> |out| > 0 && out[|out| - 1] == fail && out[..|out| - 1] == Yielded(s.deltas))
  {
    var ys := Yielded(s.deltas);
    YieldedKeepsText(s.deltas);
    var tail := if s.fails then [fail] else [];
    FlattenAppend(ys, tail);
    FlattenOne(fail);
    if !s.fails {
      assert ys + tail == ys;
    } else {
      assert (ys + tail)[..|ys + tail| - 1] == ys;
    }
  }
}
