/**
 * The client for the chat-completions endpoint: endpoint normalisation, the defaulting
 * of the request's arguments, the response cache, and the shaping of the model's JSON
 * answer into one de-duplicated word list per lexical category plus the summary table.
 * The HTTP exchange and the decoding of the answer are a parameter (`respond`).
 */
module LlmClient {
  import opened Wrappers
  import opened Text
  import opened PyValues
  import opened Vocabulary
  import TokenBudget
  import Config

  // ---------------------------------------------------------------------------
  // normalize_endpoint
  // ---------------------------------------------------------------------------

  const ChatSuffix := "/chat/completions"
  const VersionSuffix := "/v1"

  /** `s.rstrip("/")`. */
  function TrimSlashes(s: string): (r: string)
    ensures r <= s
    ensures r == [] || r[|r| - 1] != '/'
    ensures forall i :: |r| <= i < |s| ==> s[i] == '/'
  {
    if s != [] && s[|s| - 1] == '/' then TrimSlashes(s[..|s| - 1]) else s
  }

  /** `normalize_endpoint`: trailing slashes dropped, then the chat-completions path completed. */
  function NormalizeEndpoint(endpoint: string): (r: string)
    ensures EndsWith(r, ChatSuffix)
    ensures TrimSlashes(endpoint) <= r
  {
    var cleaned := TrimSlashes(endpoint);
    if EndsWith(cleaned, VersionSuffix) then cleaned + ChatSuffix
    else if EndsWith(cleaned, ChatSuffix) then cleaned
    else if EndsWith(cleaned, VersionSuffix + ChatSuffix) then cleaned
    else cleaned + VersionSuffix + ChatSuffix
  }

  lemma EndsWithAppended(s: string, t: string)
    ensures EndsWith(s + t, t)
  {
    assert (s + t)[|s|..] == t;
  }

  /** The third test of `normalize_endpoint` never decides anything: the second already caught it. */
  lemma FullPathEndsWithChat(c: string)
    requires EndsWith(c, VersionSuffix + ChatSuffix)
    ensures EndsWith(c, ChatSuffix)
  {
    var n := |VersionSuffix + ChatSuffix|;
    assert c[|c| - |ChatSuffix|..] == c[|c| - n..][|VersionSuffix|..];
  }

  /** A string ending in the chat path has no trailing slash and does not end in "/v1". */
  lemma ChatEndingIsClean(r: string)
    requires EndsWith(r, ChatSuffix)
    ensures TrimSlashes(r) == r
    ensures !EndsWith(r, VersionSuffix)
  {
    assert r[|r| - 1] == ChatSuffix[|ChatSuffix| - 1];
  }

  /** Normalising a normalised endpoint changes nothing. */
  lemma NormalizeIdempotent(endpoint: string)
    ensures NormalizeEndpoint(NormalizeEndpoint(endpoint)) == NormalizeEndpoint(endpoint)
  {
    ChatEndingIsClean(NormalizeEndpoint(endpoint));
  }

  /** A base address: no trailing slash and not already ending in a known path. */
  predicate BaseAddress(base: string) {
    base != [] && base[|base| - 1] != '/' && !EndsWith(base, VersionSuffix) && !EndsWith(base, ChatSuffix)
  }

  lemma BareBase(base: string)
    requires BaseAddress(base)
    ensures NormalizeEndpoint(base) == base + VersionSuffix + ChatSuffix
  {
    assert !EndsWith(base, VersionSuffix + ChatSuffix) by {
      if EndsWith(base, VersionSuffix + ChatSuffix) {
        FullPathEndsWithChat(base);
      }
    }
  }

  lemma SlashedBase(base: string)
    requires BaseAddress(base)
    ensures NormalizeEndpoint(base + "/") == NormalizeEndpoint(base)
  {
    assert (base + "/")[..|base|] == base;
  }

  lemma VersionedBase(base: string)
    requires BaseAddress(base)
    ensures NormalizeEndpoint(base + VersionSuffix) == base + VersionSuffix + ChatSuffix
  {
    var v := base + VersionSuffix;
    assert v[|v| - 1] == '1';
    EndsWithAppended(base, VersionSuffix);
  }

  lemma FullBase(base: string)
    requires BaseAddress(base)
    ensures NormalizeEndpoint(base + VersionSuffix + ChatSuffix) == base + VersionSuffix + ChatSuffix
  {
    var full := base + VersionSuffix + ChatSuffix;
    EndsWithAppended(base + VersionSuffix, ChatSuffix);
    ChatEndingIsClean(full);
  }

  /**
   * A base address maps to the same full URL whether given bare, with a slash, with
   * "/v1", or in full.
   */
  lemma NormalizedForms(base: string)
    requires BaseAddress(base)
    ensures var full := base + "/v1/chat/completions";
      NormalizeEndpoint(base) == full
      && NormalizeEndpoint(base + "/") == full
      && NormalizeEndpoint(base + "/v1") == full
      && NormalizeEndpoint(base + "/v1/chat/completions") == full
  {
    assert base + VersionSuffix + ChatSuffix == base + "/v1/chat/completions";
    BareBase(base);
    SlashedBase(base);
    VersionedBase(base);
    FullBase(base);
  }

  /** The local server address used throughout the tests is such a base address. */
  lemma LocalServerIsBase()
    ensures BaseAddress("http://127.0.0.1:1234")
  {
    var base := "http://127.0.0.1:1234";
    assert |base| == 21;
    assert base[18] == '2' && VersionSuffix[0] == '/';
    assert base[4] == ':' && ChatSuffix[0] == '/';
  }

  // ---------------------------------------------------------------------------
  // Arguments and their defaults
  // ---------------------------------------------------------------------------

  const CacheVersion := 1
  const DefaultModel := "local-model"
  const DefaultTemperature := Opaque("0.2")

  /** The arguments of `request_vocabulary_analysis`; `PyNone` stands for an omitted keyword. */
  datatype Arguments = Arguments(
    endpoint: string,
    model: string,
    text: string,
    temperature: PyValue,
    systemPrompt: PyValue,
    contextLimit: PyValue,
    maxOutputTokens: PyValue,
    tokenSafetyMargin: PyValue)

  /** `model.strip() or "local-model"`. */
  function EffectiveModel(model: string): (r: string)
    ensures AllSpace(model) ==> r == DefaultModel
    ensures !AllSpace(model) ==> r == Strip(model) && r != [] && IsStripped(r)
  {
    StripEmptyIffAllSpace(model);
    StripIsStripped(model);
    var m := Strip(model);
    if m == [] then DefaultModel else m
  }

  /** The system prompt: the default for None, a string as given, anything else as `str()` shows it. */
  function EffectivePrompt(prompt: PyValue): (r: string)
    ensures prompt.PyNone? ==> r == Config.DefaultSystemPrompt
    ensures prompt.PyStr? ==> r == prompt.s
  {
    match prompt
    case PyNone => Config.DefaultSystemPrompt
    case PyStr(s) => s
    case _ => Show(prompt)
  }

  /** The values the request actually uses. */
  datatype Prepared = Prepared(endpoint: string, model: string, prompt: string, temperature: PyValue)

  function Prepare(args: Arguments, toFloat: PyValue -> Option<PyValue>): Prepared {
    Prepared(NormalizeEndpoint(args.endpoint), EffectiveModel(args.model), EffectivePrompt(args.systemPrompt),
             Config.CoerceFloat(toFloat, args.temperature, DefaultTemperature))
  }

  /**
   * The cache key. The source hashes this signature; two requests share a cache entry
   * exactly when their signatures agree, so the signature itself serves as the key.
   */
  datatype Signature = Signature(
    version: int,
    endpoint: string,
    model: string,
    temperature: PyValue,
    systemPrompt: string,
    text: string,
    contextLimit: PyValue,
    maxOutputTokens: PyValue,
    tokenSafetyMargin: PyValue)

  function SignatureOf(args: Arguments, p: Prepared): Signature {
    Signature(CacheVersion, p.endpoint, p.model, p.temperature, p.prompt, args.text,
              args.contextLimit, args.maxOutputTokens, args.tokenSafetyMargin)
  }

  /** The system and user messages. */
  function Messages(p: Prepared, text: string): PyValue {
    PyList([PyDict([("role", PyStr("system")), ("content", PyStr(p.prompt))]),
            PyDict([("role", PyStr("user")), ("content", PyStr("TEXT:\n" + text))])])
  }

  /** The settings handed to the token budget. */
  function BudgetSettings(args: Arguments, p: Prepared): PyValue {
    PyDict([("context_limit", args.contextLimit), ("max_output_tokens", args.maxOutputTokens),
            ("token_safety_margin", args.tokenSafetyMargin), ("model", PyStr(p.model))])
  }

  /** The JSON body posted to the endpoint. */
  datatype Payload = Payload(model: string, messages: PyValue, temperature: PyValue, maxTokens: int)

  // ---------------------------------------------------------------------------
  // Result shaping
  // ---------------------------------------------------------------------------

  /** An element of the answer's list as `dedupe_preserve_order` sees it. */
  function AsValue(v: PyValue): Value {
    match v
    case PyNone => Null
    case PyStr(s) => Str(s)
    case _ => Other(Show(v))
  }

  /** What `for item in v` visits: list elements, a string's characters, a dictionary's keys; None where Python raises TypeError. */
  function Iterated(v: PyValue): (r: Option<seq<Value>>)
    ensures v.PyList? ==> r == Some(seq(|v.items|, i requires 0 <= i < |v.items| => AsValue(v.items[i])))
    ensures (v.PyNone? || v.PyBool? || v.PyInt? || v.Opaque?) ==> r.None?
  {
    match v
    case PyList(items) => Some(seq(|items|, i requires 0 <= i < |items| => AsValue(items[i])))
    case PyStr(s) => Some(seq(|s|, i requires 0 <= i < |s| => Str([s[i]])))
    case PyDict(entries) => Some(seq(|entries|, i requires 0 <= i < |entries| => Str(entries[i].0)))
    case _ => None
  }

  datatype LlmError =
    | EmptyEndpoint
    | BudgetFailed(e: TokenBudget.BudgetError)
    | ResponseFailed(reason: string)
    | NotAnObject
    | NotIterable(key: string)

  /**
   * The text of each error. The first four are the client's own messages; for a
   * category that is not iterable Python's `TypeError` names the value's type
   * ("'int' object is not iterable"), and the text here, which names the key
   * instead, is this model's own.
   */
  function ErrorMessage(e: LlmError): string {
    match e
    case EmptyEndpoint => "Endpoint is empty."
    case BudgetFailed(b) => TokenBudget.Message(b)
    case ResponseFailed(reason) => reason
    case NotAnObject => "Model response JSON must be an object."
    case NotIterable(key) => "'" + key + "' value is not iterable"
  }

  /** One category's words: `dedupe_preserve_order(parsed.get(key, []))`. */
  function CategoryWords(entries: seq<(string, PyValue)>, key: string): Result<seq<string>, LlmError> {
    match Iterated(Get(entries, key, PyList([])))
    case None => Failure(NotIterable(key))
    case Some(items) => Success(Deduped(items))
  }

  /** The result dictionary over the given keys, built in order; the first key whose value cannot be iterated fails it. */
  function ShapedOver(entries: seq<(string, PyValue)>, keys: seq<string>): Result<map<string, seq<string>>, LlmError> {
    if keys == [] then Success(map[])
    else
      match ShapedOver(entries, keys[..|keys| - 1])
      case Failure(e) => Failure(e)
      case Success(words) =>
        var key := keys[|keys| - 1];
        match CategoryWords(entries, key)
        case Failure(e) => Failure(e)
        case Success(w) => Success(words[key := w])
  }

  /** The result dictionary of `request_vocabulary_analysis`, over the lexical categories. */
  function Shaped(entries: seq<(string, PyValue)>): Result<map<string, seq<string>>, LlmError> {
    ShapedOver(entries, LexicalCategories)
  }

  /** Whether the answer's value for a key (an empty list when absent) can be iterated. */
  predicate Iterable(entries: seq<(string, PyValue)>, key: string) {
    Iterated(Get(entries, key, PyList([]))).Some?
  }

  /** One step of the shaping: it fails when the earlier keys did or when the last key's value cannot be iterated. */
  lemma ShapedOverStep(entries: seq<(string, PyValue)>, keys: seq<string>)
    requires keys != []
    ensures ShapedOver(entries, keys).Failure?
            <==> ShapedOver(entries, keys[..|keys| - 1]).Failure? || !Iterable(entries, keys[|keys| - 1])
  {
  }

  /** A key whose value cannot be iterated makes the shaping fail. */
  lemma {:induction false} BadKeyFails(entries: seq<(string, PyValue)>, keys: seq<string>, i: nat)
    requires i < |keys| && !Iterable(entries, keys[i])
    ensures ShapedOver(entries, keys).Failure?
  {
    ShapedOverStep(entries, keys);
    if i < |keys| - 1 {
      var front := keys[..|keys| - 1];
      assert front[i] == keys[i];
      BadKeyFails(entries, front, i);
    }
  }

  /** A failed shaping points at a key whose value cannot be iterated. */
  lemma {:induction false} FailureHasBadKey(entries: seq<(string, PyValue)>, keys: seq<string>) returns (i: nat)
    requires ShapedOver(entries, keys).Failure?
    ensures i < |keys| && !Iterable(entries, keys[i])
  {
    ShapedOverStep(entries, keys);
    var front := keys[..|keys| - 1];
    if ShapedOver(entries, front).Failure? {
      i := FailureHasBadKey(entries, front);
      assert front[i] == keys[i];
    } else {
      i := |keys| - 1;
    }
  }

  /** Shaping fails exactly when one of the keys has a value that cannot be iterated. */
  lemma ShapedOverFails(entries: seq<(string, PyValue)>, keys: seq<string>)
    ensures ShapedOver(entries, keys).Failure? <==> exists i :: 0 <= i < |keys| && !Iterable(entries, keys[i])
  {
    if ShapedOver(entries, keys).Failure? {
      var i := FailureHasBadKey(entries, keys);
    }
    if exists i :: 0 <= i < |keys| && !Iterable(entries, keys[i]) {
      var i :| 0 <= i < |keys| && !Iterable(entries, keys[i]);
      BadKeyFails(entries, keys, i);
    }
  }

  /** A successful shaping extends the shaping of all but the last key with that key's list. */
  lemma ShapedOverLast(entries: seq<(string, PyValue)>, keys: seq<string>)
    requires keys != [] && ShapedOver(entries, keys).Success?
    ensures ShapedOver(entries, keys[..|keys| - 1]).Success?
    ensures CategoryWords(entries, keys[|keys| - 1]).Success?
    ensures ShapedOver(entries, keys).value
         == ShapedOver(entries, keys[..|keys| - 1]).value[keys[|keys| - 1] := CategoryWords(entries, keys[|keys| - 1]).value]
  {
  }

  /**
   * A successful result over some keys holds exactly those keys, each with the
   * de-duplicated list the answer gives it.
   */
  lemma {:induction false} ShapedOverHolds(entries: seq<(string, PyValue)>, keys: seq<string>)
    requires ShapedOver(entries, keys).Success?
    ensures var words := ShapedOver(entries, keys).value;
      (forall k :: k in words <==> k in keys)
      && forall i :: 0 <= i < |keys| ==> CategoryWords(entries, keys[i]) == Success(words[keys[i]])
  {
    if keys != [] {
      var front := keys[..|keys| - 1];
      var key := keys[|keys| - 1];
      ShapedOverLast(entries, keys);
      ShapedOverHolds(entries, front);
      assert keys == front + [key];
      HoldsAfterKey(entries, front, key, ShapedOver(entries, front).value, ShapedOver(entries, keys).value);
    }
  }

  /** The induction step of ShapedOverHolds, on plain maps. */
  lemma HoldsAfterKey(entries: seq<(string, PyValue)>, front: seq<string>, key: string,
                      words: map<string, seq<string>>, w: map<string, seq<string>>)
    requires CategoryWords(entries, key).Success? && w == words[key := CategoryWords(entries, key).value]
    requires forall k :: k in words <==> k in front
    requires forall i :: 0 <= i < |front| ==> CategoryWords(entries, front[i]) == Success(words[front[i]])
    ensures forall k :: k in w <==> k in front + [key]
    ensures forall i :: 0 <= i < |front + [key]| ==> CategoryWords(entries, (front + [key])[i]) == Success(w[(front + [key])[i]])
  {
    var keys := front + [key];
    forall i | 0 <= i < |keys|
      ensures CategoryWords(entries, keys[i]) == Success(w[keys[i]])
    {
      if i < |front| && keys[i] != key {
        assert front[i] == keys[i];
      }
    }
    forall k
      ensures k in w <==> k in keys
    {
      if k in keys && k != key {
        var i :| 0 <= i < |keys| && keys[i] == k;
        assert front[i] == k;
      }
      if k in words {
        var i :| 0 <= i < |front| && front[i] == k;
        assert keys[i] == k;
      }
    }
  }

  /** Once a prefix of the keys fails, the whole does, with the same error. */
  lemma {:induction false} ShapedOverFailurePersists(entries: seq<(string, PyValue)>, keys: seq<string>, n: nat)
    requires n <= |keys| && ShapedOver(entries, keys[..n]).Failure?
    ensures ShapedOver(entries, keys) == ShapedOver(entries, keys[..n])
    decreases |keys| - n
  {
    if n < |keys| {
      assert keys[..n + 1][..n] == keys[..n];
      ShapedOverFailurePersists(entries, keys, n + 1);
    } else {
      assert keys[..n] == keys;
    }
  }

  /**
   * The shaped answer: every category present, each mapped to the de-duplicated list
   * the answer holds for it (empty when absent), which has no duplicates; it fails
   * exactly when some category's value cannot be iterated.
   */
  lemma ShapedFacts(entries: seq<(string, PyValue)>)
    ensures Shaped(entries).Failure?
            <==> exists i :: 0 <= i < |LexicalCategories| && !Iterable(entries, LexicalCategories[i])
    ensures Shaped(entries).Success? ==>
      var words := Shaped(entries).value;
      (forall k :: k in words <==> k in LexicalCategories)
      && forall i :: 0 <= i < |LexicalCategories| ==>
           CategoryResult(entries, LexicalCategories[i], words[LexicalCategories[i]])
  {
    ShapedOverFails(entries, LexicalCategories);
    if Shaped(entries).Success? {
      ShapedOverHolds(entries, LexicalCategories);
      var words := Shaped(entries).value;
      forall i | 0 <= i < |LexicalCategories|
        ensures CategoryResult(entries, LexicalCategories[i], words[LexicalCategories[i]])
      {
        CategoryWordsFacts(entries, LexicalCategories[i], words[LexicalCategories[i]]);
      }
    }
  }

  /** What a category's list is, given the answer. */
  predicate CategoryResult(entries: seq<(string, PyValue)>, key: string, words: seq<string>) {
    Iterated(Get(entries, key, PyList([]))).Some?
    && words == Deduped(Iterated(Get(entries, key, PyList([]))).value)
    && Distinct(words)
    && (!HasKey(entries, key) ==> words == [])
  }

  lemma CategoryWordsFacts(entries: seq<(string, PyValue)>, key: string, words: seq<string>)
    requires CategoryWords(entries, key) == Success(words)
    ensures CategoryResult(entries, key, words)
  {
    var items := Iterated(Get(entries, key, PyList([])));
    DedupedDistinct(items.value);
    if !HasKey(entries, key) {
      assert items.value == [];
    }
  }

  /** Shaping one more key: it fails on that key, or gains that key's list. */
  lemma ShapedOverNext(entries: seq<(string, PyValue)>, keys: seq<string>, n: nat, words: map<string, seq<string>>)
    requires n < |keys| && ShapedOver(entries, keys[..n]) == Success(words)
    ensures var key := keys[n];
      ShapedOver(entries, keys[..n + 1])
        == match CategoryWords(entries, key)
           case Failure(e) => Failure(e)
           case Success(w) => Success(words[key := w])
  {
    assert keys[..n + 1][..n] == keys[..n];
  }

  /** The dictionary comprehension over the keys, one key at a time. */
  method ShapeOver(entries: seq<(string, PyValue)>, keys: seq<string>) returns (r: Result<map<string, seq<string>>, LlmError>)
    ensures r == ShapedOver(entries, keys)
  {
    var words: map<string, seq<string>> := map[];
    for n := 0 to |keys|
      invariant ShapedOver(entries, keys[..n]) == Success(words)
    {
      var key := keys[n];
      ShapedOverNext(entries, keys, n, words);
      var items := Iterated(Get(entries, key, PyList([])));
      if items.None? {
        ShapedOverFailurePersists(entries, keys, n + 1);
        return Failure(NotIterable(key));
      }
      var w := DedupePreserveOrder(items.value);
      words := words[key := w];
    }
    assert keys[..|keys|] == keys;
    r := Success(words);
  }

  // ---------------------------------------------------------------------------
  // request_vocabulary_analysis
  // ---------------------------------------------------------------------------

  /** What the call returns: a dictionary found in the cache, or the freshly shaped answer with its table. */
  datatype Reply = Cached(value: PyValue) | Fresh(words: map<string, seq<string>>, table: string)

  /** A word list as a JSON array of strings. */
  function WordList(words: seq<string>): PyValue {
    PyList(seq(|words|, k requires 0 <= k < |words| => PyStr(words[k])))
  }

  /** The fresh reply as the dictionary stored in the cache. */
  function ReplyValue(words: map<string, seq<string>>, table: string): PyValue {
    PyDict(seq(|LexicalCategories|, i requires 0 <= i < |LexicalCategories| =>
                 (LexicalCategories[i], WordList(WordsOf(words, LexicalCategories[i]))))
           + [("table", PyStr(table))])
  }

  /**
   * The collaborators: `float()`, the configured budget defaults, the tokenizer the
   * model selects, and the HTTP exchange together with the decoding of the answer's
   * JSON (a failure carries the message of whatever it raised).
   */
  datatype Env = Env(
    toFloat: PyValue -> Option<PyValue>,
    defaults: TokenBudget.Defaults,
    tokenizer: Option<string -> nat>,
    respond: (string, Payload) -> Result<PyValue, string>)

  /** The outcome of a call: its result and the request it posted, if any. */
  datatype Exchange = Exchange(result: Result<Reply, LlmError>, posted: Option<(string, Payload)>)

  /** What `request_vocabulary_analysis` does, given what the cache lookup produced (None for no cache, a miss or a cache error). */
  function Outcome(args: Arguments, cached: Option<PyValue>, env: Env): Exchange {
    if args.endpoint == [] then Exchange(Failure(EmptyEndpoint), None)
    else if cached.Some? && cached.value.PyDict? then Exchange(Success(Cached(cached.value)), None)
    else
      var p := Prepare(args, env.toFloat);
      Budgeted(p, Messages(p, args.text),
               TokenBudget.MaxTokens(Messages(p, args.text), BudgetSettings(args, p), env.defaults, env.tokenizer), env)
  }

  /** The request once the answer's allowance is known: a budget error stops it before anything is posted. */
  function Budgeted(p: Prepared, messages: PyValue, maxTokens: Result<int, TokenBudget.BudgetError>, env: Env): Exchange {
    match maxTokens
    case Failure(e) => Exchange(Failure(BudgetFailed(e)), None)
    case Success(m) =>
      var payload := Payload(p.model, messages, p.temperature, m);
      Exchange(Answered(env.respond(p.endpoint, payload)), Some((p.endpoint, payload)))
  }

  /** The reply made of the decoded answer. */
  function Answered(parsed: Result<PyValue, string>): Result<Reply, LlmError> {
    match parsed
    case Failure(reason) => Failure(ResponseFailed(reason))
    case Success(v) =>
      if !v.PyDict? then Failure(NotAnObject)
      else
        match Shaped(v.entries)
        case Failure(e) => Failure(e)
        case Success(words) => Success(Fresh(words, FormatMarkdownTable(words)))
  }

  /** An empty endpoint is refused before anything else happens. */
  lemma EmptyEndpointRefused(args: Arguments, cached: Option<PyValue>, env: Env)
    requires args.endpoint == []
    ensures Outcome(args, cached, env) == Exchange(Failure(EmptyEndpoint), None)
    ensures ErrorMessage(EmptyEndpoint) == "Endpoint is empty."
  {
  }

  /** A dictionary found in the cache is returned as it is, and nothing is posted. */
  lemma CacheHitPostsNothing(args: Arguments, entries: seq<(string, PyValue)>, env: Env)
    requires args.endpoint != []
    ensures Outcome(args, Some(PyDict(entries)), env) == Exchange(Success(Cached(PyDict(entries))), None)
  {
  }

  /** Something in the cache that is not a dictionary is ignored, as a miss is. */
  lemma NonDictCacheEntryIgnored(args: Arguments, v: PyValue, env: Env)
    requires !v.PyDict?
    ensures Outcome(args, Some(v), env) == Outcome(args, None, env)
  {
  }

  /**
   * Whenever a request goes out, it goes to the normalised endpoint with the effective
   * model (blank becomes "local-model"), the system prompt (None becomes the default)
   * and the text behind "TEXT:\n", and with the allowance the token budget computed
   * for those messages.
   */
  lemma PostedRequest(args: Arguments, cached: Option<PyValue>, env: Env)
    requires Outcome(args, cached, env).posted.Some?
    ensures var (url, payload) := Outcome(args, cached, env).posted.value;
      var p := Prepare(args, env.toFloat);
      args.endpoint != []
      && url == NormalizeEndpoint(args.endpoint) && EndsWith(url, ChatSuffix)
      && payload.model == EffectiveModel(args.model)
      && (AllSpace(args.model) ==> payload.model == DefaultModel)
      && (args.systemPrompt.PyNone? ==> p.prompt == Config.DefaultSystemPrompt)
      && payload.messages == Messages(p, args.text)
      && TokenBudget.MaxTokens(payload.messages, BudgetSettings(args, p), env.defaults, env.tokenizer)
         == Success(payload.maxTokens)
  {
    var p := Prepare(args, env.toFloat);
    var messages := Messages(p, args.text);
    var r := TokenBudget.MaxTokens(messages, BudgetSettings(args, p), env.defaults, env.tokenizer);
    assert Outcome(args, cached, env) == Budgeted(p, messages, r, env);
  }

  /**
   * A fresh reply comes from an answer that decoded to an object; it holds every
   * category, each with the de-duplicated list of the answer, and the table of exactly
   * those lists.
   */
  lemma FreshReply(parsed: Result<PyValue, string>)
    requires Answered(parsed).Success? && Answered(parsed).value.Fresh?
    ensures var reply := Answered(parsed).value;
      parsed.Success? && parsed.value.PyDict?
      && reply.table == FormatMarkdownTable(reply.words)
      && (forall k :: k in reply.words <==> k in LexicalCategories)
      && forall i :: 0 <= i < |LexicalCategories| ==>
           CategoryResult(parsed.value.entries, LexicalCategories[i], reply.words[LexicalCategories[i]])
  {
    ShapedFacts(parsed.value.entries);
  }

  /** An answer that is not an object is refused, and so is one whose category value cannot be iterated. */
  lemma AnswerErrors(parsed: Result<PyValue, string>)
    ensures parsed.Success? && !parsed.value.PyDict? ==> Answered(parsed) == Failure(NotAnObject)
    ensures parsed.Success? && parsed.value.PyDict? ==>
      (Answered(parsed).Failure?
       <==> exists i :: 0 <= i < |LexicalCategories| && !Iterable(parsed.value.entries, LexicalCategories[i]))
  {
    if parsed.Success? && parsed.value.PyDict? {
      ShapedFacts(parsed.value.entries);
    }
  }

  /** A cache whose `get` and `set` either work or raise; entries are keyed by signature. */
  class ResponseCache {
    var entries: map<Signature, PyValue>
    var failing: bool

    constructor(entries: map<Signature, PyValue>, failing: bool)
      ensures this.entries == entries && this.failing == failing
    {
      this.entries := entries;
      this.failing := failing;
    }

    /** `cache.get(key)`: the stored value, None on a miss, a failure when the cache raises. */
    method Get(key: Signature) returns (r: Result<Option<PyValue>, string>)
      ensures r == (if failing then Failure("cache unavailable")
                    else if key in entries then Success(Some(entries[key])) else Success(None))
    {
      if failing {
        return Failure("cache unavailable");
      }
      r := Success(if key in entries then Some(entries[key]) else None);
    }

    /** `cache.set(key, value)`: stores the value unless the cache raises. */
    method Set(key: Signature, value: PyValue) returns (ok: bool)
      modifies this`entries
      ensures ok == !failing
      ensures entries == if failing then old(entries) else old(entries)[key := value]
    {
      if failing {
        return false;
      }
      entries := entries[key := value];
      ok := true;
    }
  }

  /** What the lookup of `key` in a cache in the given state produces once its exceptions are swallowed. */
  function Looked(entries: map<Signature, PyValue>, failing: bool, key: Signature): (r: Option<PyValue>)
    ensures failing ==> r.None?
    ensures !failing ==> (r.Some? <==> key in entries)
  {
    if failing || key !in entries then None else Some(entries[key])
  }

  /**
   * The part of `request_vocabulary_analysis` after the cache lookup: the budget, the
   * post, and the shaping of the answer.
   */
  method Fetch(args: Arguments, p: Prepared, env: Env) returns (x: Exchange)
    ensures x == Budgeted(p, Messages(p, args.text),
                          TokenBudget.MaxTokens(Messages(p, args.text), BudgetSettings(args, p), env.defaults, env.tokenizer), env)
  {
    var messages := Messages(p, args.text);
    var maxTokens := TokenBudget.CalculateMaxTokens(messages, BudgetSettings(args, p), env.defaults, env.tokenizer);
    if maxTokens.Failure? {
      return Exchange(Failure(BudgetFailed(maxTokens.error)), None);
    }
    var payload := Payload(p.model, messages, p.temperature, maxTokens.value);
    var posted := Some((p.endpoint, payload));
    var parsed := env.respond(p.endpoint, payload);
    if parsed.Failure? {
      return Exchange(Failure(ResponseFailed(parsed.error)), posted);
    }
    if !parsed.value.PyDict? {
      return Exchange(Failure(NotAnObject), posted);
    }
    var words := ShapeOver(parsed.value.entries, LexicalCategories);
    if words.Failure? {
      return Exchange(Failure(words.error), posted);
    }
    x := Exchange(Success(Fresh(words.value, FormatMarkdownTable(words.value))), posted);
  }

  /** The cache lookup with its exceptions swallowed: None without a cache, on a miss, or when it raises. */
  method LookUp(cache: ResponseCache?, key: Signature) returns (cached: Option<PyValue>)
    ensures cached == if cache == null then None else Looked(cache.entries, cache.failing, key)
  {
    cached := None;
    if cache != null {
      var got := cache.Get(key);
      cached := if got.Success? then got.value else None;
    }
  }

  /** The reply is written back when it is fresh and there is a cache; a failing write is ignored. */
  method Remember(cache: ResponseCache?, key: Signature, r: Result<Reply, LlmError>)
    modifies cache
    ensures cache != null ==> cache.failing == old(cache.failing)
    ensures cache != null ==>
      cache.entries == if !cache.failing && r.Success? && r.value.Fresh?
                       then old(cache.entries)[key := ReplyValue(r.value.words, r.value.table)]
                       else old(cache.entries)
  {
    if cache != null && r.Success? && r.value.Fresh? {
      var _ := cache.Set(key, ReplyValue(r.value.words, r.value.table));
    }
  }

  /** The call once the cache lookup has produced `cached`. */
  method Respond(args: Arguments, cached: Option<PyValue>, env: Env) returns (x: Exchange)
    ensures x == Outcome(args, cached, env)
  {
    if args.endpoint == [] {
      return Exchange(Failure(EmptyEndpoint), None);
    }
    if cached.Some? && cached.value.PyDict? {
      return Exchange(Success(Cached(cached.value)), None);
    }
    x := Fetch(args, Prepare(args, env.toFloat), env);
  }

  /**
   * `request_vocabulary_analysis`. The result and the posted request are those of
   * `Outcome` for what the cache lookup produced; a working cache gains the fresh
   * reply under its signature, and a failing cache is left alone without the call failing.
   */
  method RequestVocabularyAnalysis(args: Arguments, cache: ResponseCache?, env: Env)
    returns (r: Result<Reply, LlmError>, posted: Option<(string, Payload)>)
    modifies cache
    ensures var key := SignatureOf(args, Prepare(args, env.toFloat));
      var cached := if cache == null || args.endpoint == [] then None
                    else Looked(old(cache.entries), old(cache.failing), key);
      r == Outcome(args, cached, env).result && posted == Outcome(args, cached, env).posted
    ensures cache != null ==> cache.failing == old(cache.failing)
    ensures cache != null ==>
      cache.entries == if !cache.failing && r.Success? && r.value.Fresh?
                       then old(cache.entries)[SignatureOf(args, Prepare(args, env.toFloat)) := ReplyValue(r.value.words, r.value.table)]
                       else old(cache.entries)
  {
    var key := SignatureOf(args, Prepare(args, env.toFloat));
    var cached: Option<PyValue> := None;
    if args.endpoint != [] {
      cached := LookUp(cache, key);
    }
    var x := Respond(args, cached, env);
    r, posted := x.result, x.posted;
    Remember(cache, key, r);
  }
}
