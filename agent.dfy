/**
 * `get_agent_response` of the chat backend: make sure the history starts
 * with a system entry, ask the model, strip its reply and return a new
 * history with the reply appended. The model is an oracle from the history
 * it is sent to a reply or an error; the prompt text is a parameter.
 */
module Agent {
  import opened Wrappers

  /** One entry of a conversation. */
  datatype Message = Message(role: string, content: string)

  const SystemRole: string := "system"
  const AssistantRole: string := "assistant"

  /** Python's `str.isspace` on one character. */
  predicate IsSpace(c: char) {
    var n := c as int;
    (9 <= n <= 13) || (28 <= n <= 32) || n == 0x85 || n == 0xA0 || n == 0x1680
    || (0x2000 <= n <= 0x200A) || n == 0x2028 || n == 0x2029 || n == 0x202F
    || n == 0x205F || n == 0x3000
  }

  function TrimStart(s: string): (t: string)
    ensures |t| <= |s|
  {
    if s != [] && IsSpace(s[0]) then TrimStart(s[1..]) else s
  }

  function TrimEnd(s: string): (t: string)
    ensures |t| <= |s|
  {
    if s != [] && IsSpace(s[|s| - 1]) then TrimEnd(s[..|s| - 1]) else s
  }

  /** `str.strip()` with no argument. */
  function Strip(s: string): string {
    TrimEnd(TrimStart(s))
  }

  /** Whether the history lacks a leading system entry. */
  predicate NeedsSystemPrompt(messages: seq<Message>) {
    messages == [] || messages[0].role != SystemRole
  }

  /** The history sent to the model: a system entry is put in front when none leads. */
  function WithSystemPrompt(messages: seq<Message>, systemPrompt: string): (r: seq<Message>)
    ensures r != [] && r[0].role == SystemRole
  {
    if NeedsSystemPrompt(messages) then [Message(SystemRole, systemPrompt)] + messages
    else messages
  }

  /**
   * One turn: the history with the stripped reply appended, or the model's
   * error, which is passed to the caller unchanged.
   */
  function GetAgentResponse<E>(
    messages: seq<Message>, systemPrompt: string, complete: seq<Message> -> Result<string, E>)
    : (r: Result<seq<Message>, E>)
    ensures r.Ok? ==> |r.value| >= 2 && r.value[|r.value| - 1].role == AssistantRole
  {
    var current := WithSystemPrompt(messages, systemPrompt);
    match complete(current)
    case Err(e) => Err(e)
    case Ok(raw) => Ok(current + [Message(AssistantRole, Strip(raw))])
  }
}

module AgentFacts {
  import opened Wrappers
  import opened Agent

  /** A missing system entry is injected in front of the whole history. */
  lemma InjectsWhenMissing(messages: seq<Message>, systemPrompt: string)
    requires NeedsSystemPrompt(messages)
    ensures WithSystemPrompt(messages, systemPrompt)
      == [Message(SystemRole, systemPrompt)] + messages
  {
  }

  /** A history that already starts with a system entry is used as it is. */
  lemma KeepsExistingSystem(messages: seq<Message>, systemPrompt: string)
    requires !NeedsSystemPrompt(messages)
    ensures WithSystemPrompt(messages, systemPrompt) == messages
  {
  }

  /** Normalising a normalised history changes nothing. */
  lemma NormaliseIdempotent(messages: seq<Message>, systemPrompt: string)
    ensures var once := WithSystemPrompt(messages, systemPrompt);
      WithSystemPrompt(once, systemPrompt) == once
  {
  }

  /**
   * A successful turn returns the normalised history followed by exactly one
   * assistant entry holding the stripped reply. The caller's entries appear
   * unchanged, right before that entry; the result is two longer than the
   * input when a system entry was injected and one longer otherwise.
   */
  lemma ResponseShape<E>(
    messages: seq<Message>, systemPrompt: string, complete: seq<Message> -> Result<string, E>)
    requires complete(WithSystemPrompt(messages, systemPrompt)).Ok?
    ensures var r := GetAgentResponse(messages, systemPrompt, complete).value;
      var raw := complete(WithSystemPrompt(messages, systemPrompt)).value;
      && |r| == |messages| + (if NeedsSystemPrompt(messages) then 2 else 1)
      && r[0].role == SystemRole
      && r[|r| - |messages| - 1 .. |r| - 1] == messages
      && r[..|r| - 1] == WithSystemPrompt(messages, systemPrompt)
      && r[|r| - 1] == Message(AssistantRole, Strip(raw))
  {
    var current := WithSystemPrompt(messages, systemPrompt);
    var r := GetAgentResponse(messages, systemPrompt, complete).value;
    assert r == current + [r[|r| - 1]];
    if NeedsSystemPrompt(messages) {
      assert current[1..] == messages;
    }
  }

  /** A model error reaches the caller as it is. */
  lemma ErrorSurfaces<E>(
    messages: seq<Message>, systemPrompt: string, complete: seq<Message> -> Result<string, E>)
    requires complete(WithSystemPrompt(messages, systemPrompt)).Err?
    ensures GetAgentResponse(messages, systemPrompt, complete)
      == Err(complete(WithSystemPrompt(messages, systemPrompt)).error)
  {
  }

  /** Feeding a turn's result back in injects nothing: the next turn adds one entry. */
  lemma NextTurnAddsOne<E>(
    messages: seq<Message>, systemPrompt: string, complete: seq<Message> -> Result<string, E>)
    requires GetAgentResponse(messages, systemPrompt, complete).Ok?
    requires GetAgentResponse(GetAgentResponse(messages, systemPrompt, complete).value,
      systemPrompt, complete).Ok?
    ensures var h := GetAgentResponse(messages, systemPrompt, complete).value;
      |GetAgentResponse(h, systemPrompt, complete).value| == |h| + 1
  {
  }

  // ------------------------------------------------------------------
  // str.strip
  // ------------------------------------------------------------------

  /** Number of leading whitespace characters that `TrimStart` drops. */
  function LeadingSpaces(s: string): (n: nat)
    ensures n <= |s|
  {
    |s| - |TrimStart(s)|
  }

  lemma {:induction false} TrimStartShape(s: string)
    ensures var t := TrimStart(s); var i := |s| - |t|;
      && |t| <= |s| && t == s[i..]
      && (forall k :: 0 <= k < i ==> IsSpace(s[k]))
      && (t != [] ==> !IsSpace(t[0]))
  {
    if s != [] && IsSpace(s[0]) {
      TrimStartShape(s[1..]);
    }
  }

  lemma {:induction false} TrimEndShape(s: string)
    ensures var t := TrimEnd(s);
      && |t| <= |s| && t == s[..|t|]
      && (forall k :: |t| <= k < |s| ==> IsSpace(s[k]))
      && (t != [] ==> !IsSpace(t[|t| - 1]))
  {
    if s != [] && IsSpace(s[|s| - 1]) {
      TrimEndShape(s[..|s| - 1]);
    }
  }

  /** Trimming the end keeps a non-space first character in place. */
  lemma {:induction false} TrimEndKeepsStart(s: string)
    requires s != [] && !IsSpace(s[0])
    ensures TrimEnd(s) != [] && TrimEnd(s)[0] == s[0]
  {
    if IsSpace(s[|s| - 1]) {
      TrimEndKeepsStart(s[..|s| - 1]);
    }
  }

  /**
   * The stripped reply is the contiguous piece of the raw reply that starts
   * at `LeadingSpaces(s)`; everything before and after it is whitespace, and
   * it neither starts nor ends with whitespace.
   */
  lemma StripShape(s: string)
    ensures var r := Strip(s); var i := LeadingSpaces(s);
      && i + |r| <= |s| && r == s[i..i + |r|]
      && (forall k :: 0 <= k < i ==> IsSpace(s[k]))
      && (forall k :: i + |r| <= k < |s| ==> IsSpace(s[k]))
      && (r != [] ==> !IsSpace(r[0]) && !IsSpace(r[|r| - 1]))
  {
    var t := TrimStart(s);
    var i := |s| - |t|;
    TrimStartShape(s);
    TrimEndShape(t);
    var r := TrimEnd(t);
    assert r == t[..|r|];
    assert r == s[i..i + |r|];
    forall k | i + |r| <= k < |s| ensures IsSpace(s[k]) {
      assert s[k] == t[k - i];
    }
    if r != [] {
      TrimEndKeepsStart(t);
    }
  }

  /** Stripping a stripped string changes nothing. */
  lemma StripIdempotent(s: string)
    ensures Strip(Strip(s)) == Strip(s)
  {
    StripShape(s);
    var r := Strip(s);
    if r != [] {
      assert TrimStart(r) == r;
      TrimEndShape(r);
      assert TrimEnd(r) == r;
    }
  }
}
