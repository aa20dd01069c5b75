/**
 * The token budget of a chat request: how many tokens the messages are estimated to
 * take, and how many the model may then answer with. The tokenizer library is
 * foreign: when one is available it is a parameter that counts the tokens of a text.
 */
module TokenBudget {
  import opened Wrappers
  import opened Text
  import opened PyValues

  /** `MIN_OUTPUT_TOKENS`: an answer shorter than this is refused. */
  const MinOutputTokens := 256
  /** `_MESSAGE_OVERHEAD_TOKENS`: the per-message allowance on top of its text. */
  const MessageOverheadTokens := 4

  /** The `DEFAULT_CONTEXT_LIMIT`, `DEFAULT_MAX_OUTPUT_TOKENS` and `DEFAULT_TOKEN_SAFETY_MARGIN` the budget falls back to. */
  datatype Defaults = Defaults(contextLimit: int, maxOutputTokens: int, safetyMargin: int)

  /** The exceptions the budget raises. */
  datatype BudgetError =
    | NotAList
    | SettingsNotADict
    | TooLarge(inputTokens: int, contextLimit: int, safetyMargin: int, available: int)

  /**
   * The text of each error. `NotAList` and `TooLarge` are the budget's own messages;
   * for settings that are not a dict Python's `AttributeError` names the value's type
   * ("'list' object has no attribute 'get'"), and the text here, without the type, is
   * this model's own.
   */
  function Message(e: BudgetError): string {
    match e
    case NotAList => "messages must be a list of chat messages."
    case SettingsNotADict => "object has no attribute 'get'"
    case TooLarge(input, limit, margin, available) =>
      "Input is too large for the configured context window. "
      + "Estimated input tokens: " + IntToString(input)
      + ", context limit: " + IntToString(limit) + ", safety margin: " + IntToString(margin)
      + ", available output tokens: " + IntToString(available) + " (min 256). "
      + "Shorten the input or increase context_limit in settings.json."
  }

  // ---------------------------------------------------------------------------
  // _coerce_int
  // ---------------------------------------------------------------------------

  /** `_coerce_int`: the value as an int, unless it does not convert or falls below the minimum. */
  function CoerceInt(value: PyValue, default: int, minimum: Option<int>): (r: int)
    ensures ToInt(value).None? ==> r == default
    ensures ToInt(value).Some? && minimum.Some? && ToInt(value).value < minimum.value ==> r == default
    ensures ToInt(value).Some? && (minimum.None? || ToInt(value).value >= minimum.value) ==> r == ToInt(value).value
    ensures minimum.Some? ==> r >= minimum.value || r == default
  {
    match ToInt(value)
    case None => default
    case Some(n) => if minimum.Some? && n < minimum.value then default else n
  }

  /** An integer written out as decimal text passes through unchanged when it meets the minimum. */
  lemma CoerceIntText(n: int, default: int, minimum: Option<int>)
    requires minimum.None? || n >= minimum.value
    ensures CoerceInt(PyStr(IntToString(n)), default, minimum) == n
  {
    ParseIntRoundTrip(n);
  }

  // ---------------------------------------------------------------------------
  // _stringify_content and _flatten_message
  // ---------------------------------------------------------------------------

  /** The text of one item of a content list: a dict's "text" entry, or the item itself. */
  function ItemText(item: PyValue): string {
    if item.PyDict? && HasKey(item.entries, "text") then Show(Get(item.entries, "text", PyStr("")))
    else Show(item)
  }

  /** The texts of a content list's items, empty ones dropped. */
  function ItemTexts(items: seq<PyValue>): (texts: seq<string>)
    ensures forall k :: 0 <= k < |texts| ==> texts[k] != []
    ensures |texts| <= |items|
  {
    if items == [] then []
    else
      var t := ItemText(items[|items| - 1]);
      ItemTexts(items[..|items| - 1]) + (if t == [] then [] else [t])
  }

  /** `_stringify_content`. */
  function StringifyContent(content: PyValue): string {
    match content
    case PyNone => ""
    case PyStr(s) => s
    case PyList(items) => Join(" ", ItemTexts(items))
    case _ => Show(content)
  }

  /**
   * A list of non-empty strings without spaces flattens to those strings, one space
   * apart: splitting the content on spaces gives the items back.
   */
  lemma {:induction false} ContentWordsRoundTrip(words: seq<string>)
    requires words != []
    requires forall k :: 0 <= k < |words| ==> words[k] != [] && ' ' !in words[k]
    ensures SplitOn(StringifyContent(PyList(seq(|words|, k requires 0 <= k < |words| => PyStr(words[k])))), ' ') == words
  {
    var items := seq(|words|, k requires 0 <= k < |words| => PyStr(words[k]));
    ItemTextsOfStrings(words);
    SplitJoin(words, ' ');
  }

  lemma {:induction false} ItemTextsOfStrings(words: seq<string>)
    requires forall k :: 0 <= k < |words| ==> words[k] != []
    ensures ItemTexts(seq(|words|, k requires 0 <= k < |words| => PyStr(words[k]))) == words
  {
    if words != [] {
      var init := words[..|words| - 1];
      var items := seq(|words|, k requires 0 <= k < |words| => PyStr(words[k]));
      assert items[..|items| - 1] == seq(|init|, k requires 0 <= k < |init| => PyStr(init[k]));
      ItemTextsOfStrings(init);
      assert init + [words[|words| - 1]] == words;
    }
  }

  /** The `key:value` texts of a message's entries other than role and content, None values skipped. */
  function Extras(entries: seq<(string, PyValue)>): (extras: seq<string>)
    ensures |extras| <= |entries|
  {
    if entries == [] then []
    else
      var (key, value) := entries[|entries| - 1];
      Extras(entries[..|entries| - 1])
      + (if key == "role" || key == "content" || value.PyNone? then [] else [key + ":" + Show(value)])
  }

  /** The lines of a flattened message: the role, the content and the extras, each only when present. */
  function MessageParts(entries: seq<(string, PyValue)>): seq<string> {
    var role := Get(entries, "role", PyStr(""));
    var content := StringifyContent(Get(entries, "content", PyStr("")));
    var extras := Extras(entries);
    (if Truthy(role) then ["role:" + Show(role)] else [])
    + (if content != [] then [content] else [])
    + (if extras != [] then [Join(" ", extras)] else [])
  }

  /** What `_flatten_message` returns. */
  function Flattened(message: PyValue): string {
    if message.PyDict? then Join("\n", MessageParts(message.entries)) else Show(message)
  }

  /** The loop of `_flatten_message` that collects the extras. */
  method CollectExtras(entries: seq<(string, PyValue)>) returns (extras: seq<string>)
    ensures extras == Extras(entries)
  {
    extras := [];
    for i := 0 to |entries|
      invariant extras == Extras(entries[..i])
    {
      assert entries[..i + 1][..i] == entries[..i];
      var (key, value) := entries[i];
      if !(key == "role" || key == "content" || value.PyNone?) {
        extras := extras + [key + ":" + Show(value)];
      }
    }
    assert entries[..|entries|] == entries;
  }

  /** `_flatten_message`: the role, content and extras parts, joined line by line. */
  method FlattenMessage(message: PyValue) returns (text: string)
    ensures text == Flattened(message)
  {
    if !message.PyDict? {
      return Show(message);
    }
    var entries := message.entries;
    var role := Get(entries, "role", PyStr(""));
    var content := StringifyContent(Get(entries, "content", PyStr("")));
    var extras := CollectExtras(entries);
    ghost var rolePart := if Truthy(role) then ["role:" + Show(role)] else [];
    ghost var contentPart := if content != [] then [content] else [];
    var parts: seq<string> := [];
    if Truthy(role) {
      parts := parts + ["role:" + Show(role)];
    }
    assert parts == rolePart;
    if content != [] {
      parts := parts + [content];
    }
    assert parts == rolePart + contentPart;
    if extras != [] {
      parts := parts + [Join(" ", extras)];
    }
    assert parts == MessageParts(entries);
    text := Join("\n", parts);
  }

  /**
   * A chat message with a role and a text content, and nothing else, flattens to the
   * role line and the content on the next line.
   */
  lemma ChatMessageFlattened(role: string, content: string)
    requires role != [] && content != []
    ensures Flattened(PyDict([("role", PyStr(role)), ("content", PyStr(content))])) == "role:" + role + "\n" + content
  {
    var entries := [("role", PyStr(role)), ("content", PyStr(content))];
    assert Extras(entries) == [] by {
      assert entries[..1] == [("role", PyStr(role))];
      assert entries[..1][..0] == [];
      assert Extras(entries[..1]) == [];
    }
    assert Get(entries, "role", PyStr("")) == PyStr(role);
    assert Get(entries, "content", PyStr("")) == PyStr(content) by {
      assert entries[1..] == [("content", PyStr(content))];
    }
    var parts := ["role:" + role, content];
    assert MessageParts(entries) == parts;
    assert Join("\n", parts[1..]) == content;
  }

  // ---------------------------------------------------------------------------
  // estimate_input_tokens
  // ---------------------------------------------------------------------------

  /** `len(text.split())`: the number of runs of non-space characters. */
  function WordCount(s: string): (n: nat)
    ensures n <= |s|
  {
    if s == [] then 0
    else
      var init := s[..|s| - 1];
      WordCount(init) + (if !IsSpace(s[|s| - 1]) && (init == [] || IsSpace(init[|init| - 1])) then 1 else 0)
  }

  /** `math.ceil(a / b)` for a non-negative numerator. */
  function CeilDiv(a: nat, b: nat): (q: nat)
    requires b > 0
    ensures q * b >= a && (q == 0 || (q - 1) * b < a)
  {
    (a + b - 1) / b
  }

  /** The characters of all flattened messages. */
  function CharTotal(messages: seq<PyValue>): nat {
    if messages == [] then 0 else CharTotal(messages[..|messages| - 1]) + |Flattened(messages[|messages| - 1])|
  }

  /** The words of all flattened messages. */
  function WordTotal(messages: seq<PyValue>): nat {
    if messages == [] then 0 else WordTotal(messages[..|messages| - 1]) + WordCount(Flattened(messages[|messages| - 1]))
  }

  /**
   * The estimate without a tokenizer: a quarter token per character or 1.3 tokens per
   * word, whichever is more, plus the per-message allowance. `ceil(w * 1.3)` is
   * `ceil(13 w / 10)`.
   */
  function FallbackEstimate(messages: seq<PyValue>): nat {
    FallbackFrom(CharTotal(messages), WordTotal(messages), |messages|)
  }

  /** The fallback estimate from the character and word totals of `count` messages. */
  function FallbackFrom(charCount: nat, wordCount: nat, count: nat): nat {
    var byChars := CeilDiv(charCount, 4);
    var byWords := CeilDiv(13 * wordCount, 10);
    (if byChars >= byWords then byChars else byWords) + count * MessageOverheadTokens
  }

  /** The estimate with a tokenizer: the tokens of all flattened messages, blank-line separated. */
  function TokenizerEstimate(messages: seq<PyValue>, countTokens: string -> nat): nat {
    var text := Join("\n\n", seq(|messages|, k requires 0 <= k < |messages| => Flattened(messages[k])));
    if text == [] then 0 else countTokens(text) + |messages| * MessageOverheadTokens
  }

  /** What `estimate_input_tokens` returns or raises. */
  function Estimate(messages: PyValue, tokenizer: Option<string -> nat>): Result<nat, BudgetError> {
    match messages
    case PyNone => Success(0)
    case PyList(items) =>
      if items == [] then Success(0)
      else if tokenizer.Some? then Success(TokenizerEstimate(items, tokenizer.value))
      else Success(FallbackEstimate(items))
    case _ => Failure(NotAList)
  }

  /** One more message adds its characters and its words to the totals. */
  lemma TotalsStep(items: seq<PyValue>, i: nat)
    requires i < |items|
    ensures CharTotal(items[..i + 1]) == CharTotal(items[..i]) + |Flattened(items[i])|
    ensures WordTotal(items[..i + 1]) == WordTotal(items[..i]) + WordCount(Flattened(items[i]))
  {
    assert items[..i + 1][..i] == items[..i];
  }

  /** The fallback loop of `estimate_input_tokens`: characters and words, message by message. */
  method CountText(items: seq<PyValue>) returns (charCount: nat, wordCount: nat)
    ensures charCount == CharTotal(items) && wordCount == WordTotal(items)
  {
    charCount := 0;
    wordCount := 0;
    for i := 0 to |items|
      invariant charCount == CharTotal(items[..i])
      invariant wordCount == WordTotal(items[..i])
    {
      TotalsStep(items, i);
      var text := FlattenMessage(items[i]);
      charCount := charCount + |text|;
      wordCount := wordCount + WordCount(text);
    }
    assert items[..|items|] == items;
  }

  /** `estimate_input_tokens`: the fallback branch counts characters and words message by message. */
  method EstimateInputTokens(messages: PyValue, tokenizer: Option<string -> nat>) returns (r: Result<nat, BudgetError>)
    ensures r == Estimate(messages, tokenizer)
  {
    if messages.PyNone? {
      return Success(0);
    }
    if !messages.PyList? {
      return Failure(NotAList);
    }
    var items := messages.items;
    if items == [] {
      return Success(0);
    }
    if tokenizer.Some? {
      return Success(TokenizerEstimate(items, tokenizer.value));
    }
    var charCount, wordCount := CountText(items);
    var total := CombineCounts(charCount, wordCount, |items|);
    r := Success(total);
  }

  /** The last step of the fallback: the larger of the two per-token ratios, plus the per-message allowance. */
  method CombineCounts(charCount: nat, wordCount: nat, count: nat) returns (total: nat)
    ensures total == FallbackFrom(charCount, wordCount, count)
  {
    var byChars := if charCount != 0 then CeilDiv(charCount, 4) else 0;
    var byWords := if wordCount != 0 then CeilDiv(13 * wordCount, 10) else 0;
    total := (if byChars >= byWords then byChars else byWords) + count * MessageOverheadTokens;
  }

  /**
   * The fallback estimate covers the per-message allowance, and beyond it at least a
   * quarter token per character and 1.3 tokens per word.
   */
  lemma FallbackBounds(messages: seq<PyValue>)
    ensures var rest := FallbackEstimate(messages) - |messages| * MessageOverheadTokens;
      rest >= 0 && 4 * rest >= CharTotal(messages) && 10 * rest >= 13 * WordTotal(messages)
  {
  }

  /** No messages cost nothing; anything but a list of messages is refused. */
  lemma EstimateEdges(messages: PyValue, tokenizer: Option<string -> nat>)
    ensures messages == PyNone || messages == PyList([]) ==> Estimate(messages, tokenizer) == Success(0)
    ensures Estimate(messages, tokenizer).Failure? <==> !(messages.PyNone? || messages.PyList?)
    ensures tokenizer.None? && messages.PyList? ==>
      Estimate(messages, tokenizer).value >= |messages.items| * MessageOverheadTokens
  {
  }

  // ---------------------------------------------------------------------------
  // calculate_max_tokens
  // ---------------------------------------------------------------------------

  /** The three budget settings after coercion. */
  datatype Budget = Budget(contextLimit: int, maxOutputTokens: int, safetyMargin: int)

  /** `settings or {}`, then the three `_coerce_int` calls; a settings object without `get` raises. */
  function BudgetOf(settings: PyValue, defaults: Defaults): Result<Budget, BudgetError> {
    if !Truthy(settings) then Success(CoercedBudget([], defaults))
    else if settings.PyDict? then Success(CoercedBudget(settings.entries, defaults))
    else Failure(SettingsNotADict)
  }

  function CoercedBudget(entries: seq<(string, PyValue)>, defaults: Defaults): (b: Budget)
    ensures b.contextLimit >= 1 || b.contextLimit == defaults.contextLimit
    ensures b.maxOutputTokens >= 1 || b.maxOutputTokens == defaults.maxOutputTokens
    ensures b.safetyMargin >= 0 || b.safetyMargin == defaults.safetyMargin
  {
    Budget(CoerceInt(Get(entries, "context_limit", PyNone), defaults.contextLimit, Some(1)),
           CoerceInt(Get(entries, "max_output_tokens", PyNone), defaults.maxOutputTokens, Some(1)),
           CoerceInt(Get(entries, "token_safety_margin", PyNone), defaults.safetyMargin, Some(0)))
  }

  /** The answer's allowance once the budget and the input estimate are known. */
  function Allowance(b: Budget, input: int): Result<int, BudgetError> {
    var available := b.contextLimit - input - b.safetyMargin;
    if available < MinOutputTokens then
      Failure(TooLarge(input, b.contextLimit, b.safetyMargin, if available > 0 then available else 0))
    else Success(if b.maxOutputTokens <= available then b.maxOutputTokens else available)
  }

  /** What `calculate_max_tokens` returns or raises. */
  function MaxTokens(messages: PyValue, settings: PyValue, defaults: Defaults, tokenizer: Option<string -> nat>)
    : Result<int, BudgetError>
  {
    match BudgetOf(settings, defaults)
    case Failure(e) => Failure(e)
    case Success(b) =>
      match Estimate(messages, tokenizer)
      case Failure(e) => Failure(e)
      case Success(input) => Allowance(b, input)
  }

  /** `calculate_max_tokens`. `tokenizer` is what `_get_tokenizer` finds for the settings' model. */
  method CalculateMaxTokens(messages: PyValue, settings: PyValue, defaults: Defaults, tokenizer: Option<string -> nat>)
    returns (r: Result<int, BudgetError>)
    ensures r == MaxTokens(messages, settings, defaults, tokenizer)
  {
    var budget := BudgetOf(settings, defaults);
    if budget.Failure? {
      return Failure(budget.error);
    }
    var b := budget.value;
    var estimate := EstimateInputTokens(messages, tokenizer);
    if estimate.Failure? {
      return Failure(estimate.error);
    }
    r := Allow(b, estimate.value);
  }

  /** The last step of `calculate_max_tokens`: what is left for the answer, or the refusal. */
  method Allow(b: Budget, input: int) returns (r: Result<int, BudgetError>)
    ensures r == Allowance(b, input)
  {
    var available := b.contextLimit - input - b.safetyMargin;
    if available < MinOutputTokens {
      r := Failure(TooLarge(input, b.contextLimit, b.safetyMargin, if available > 0 then available else 0));
    } else {
      r := Success(if b.maxOutputTokens <= available then b.maxOutputTokens else available);
    }
  }

  /**
   * The budget is refused exactly when fewer than 256 tokens remain after the input
   * and the safety margin; otherwise the answer may use the configured maximum, cut
   * down to what fits, so input, margin and answer together stay within the context.
   */
  lemma AllowanceFits(b: Budget, input: int)
    ensures var r := Allowance(b, input);
      (r.Failure? <==> b.contextLimit - input - b.safetyMargin < MinOutputTokens)
      && (r.Failure? ==> r.error.TooLarge? && r.error.inputTokens == input && r.error.available >= 0)
      && (r.Success? ==>
            r.value <= b.maxOutputTokens
            && input + b.safetyMargin + r.value <= b.contextLimit
            && (r.value == b.maxOutputTokens || r.value == b.contextLimit - input - b.safetyMargin)
            && (r.value >= MinOutputTokens || r.value == b.maxOutputTokens))
  {
  }

  /** Settings that are missing or empty take every default. */
  lemma NoSettingsTakesDefaults(defaults: Defaults)
    ensures BudgetOf(PyNone, defaults) == Success(Budget(defaults.contextLimit, defaults.maxOutputTokens, defaults.safetyMargin))
    ensures BudgetOf(PyDict([]), defaults) == BudgetOf(PyNone, defaults)
  {
  }
}
