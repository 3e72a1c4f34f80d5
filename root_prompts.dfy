/** The earliest prompt revision (ai.py): `Prompt.replace(placeholder,
    target)` calls `str.replace` on every value of every message and raises
    ValueError when nothing changed; a value that is not a string has no
    `replace` and raises AttributeError. Also `LLMProvider.send_request`'s
    check of the response. */
module RootPrompts {
  import opened Base
  import opened Text
  import opened Prompts

  /** Every value of every message is a string. */
  predicate AllStrings(ms: seq<Msg>)
  {
    forall i, k :: 0 <= i < |ms| && 0 <= k < |ms[i]| ==> ms[i][k].value.Str?
  }

  /** Some string value is changed by `value.replace(placeholder, target)`. */
  predicate SomeChanged(ms: seq<Msg>, placeholder: string, target: string)
  {
    exists i, k :: 0 <= i < |ms| && 0 <= k < |ms[i]| && ms[i][k].value.Str?
                   && Replace(ms[i][k].value.s, placeholder, target) != ms[i][k].value.s
  }

  function ReplaceValue(v: Value, placeholder: string, target: string): Value
  {
    if v.Str? then Str(Replace(v.s, placeholder, target)) else v
  }

  /** `new_prompt_dict`: the same keys, every value replaced. */
  function ReplaceMsg(m: Msg, placeholder: string, target: string): Msg
  {
    seq(|m|, k requires 0 <= k < |m| => Entry(m[k].key, ReplaceValue(m[k].value, placeholder, target)))
  }

  /** `Prompt.replace(placeholder, target)`. The AttributeError of a
      non-string value leaves the loop at once, so it wins over the
      ValueError checked after it. */
  function Replaced(p: Prompt, placeholder: string, target: string): Result<Prompt>
  {
    if !AllStrings(p.messages) then Err(AttributeError)
    else if !SomeChanged(p.messages, placeholder, target) then Err(ValueError)
    else Ok(Prompt(ReplaceMsgs(p.messages, placeholder, target)))
  }

  /** `new_prompts` */
  function ReplaceMsgs(ms: seq<Msg>, placeholder: string, target: string): seq<Msg>
  {
    seq(|ms|, i requires 0 <= i < |ms| => ReplaceMsg(ms[i], placeholder, target))
  }

  /** The nested loops with the `found_placeholder` flag. */
  method ReplacePlaceholder(p: Prompt, placeholder: string, target: string) returns (r: Result<Prompt>)
    ensures r == Replaced(p, placeholder, target)
  {
    var ms := p.messages;
    var found := false;
    var newPrompts: seq<Msg> := [];
    for i := 0 to |ms|
      invariant |newPrompts| == i
      invariant forall j :: 0 <= j < i ==> newPrompts[j] == ReplaceMsg(ms[j], placeholder, target)
      invariant AllStrings(ms[..i])
      invariant found <==> SomeChanged(ms[..i], placeholder, target)
    {
      var msg := ms[i];
      var newDict: seq<Entry> := [];
      for k := 0 to |msg|
        invariant |newDict| == k
        invariant forall j :: 0 <= j < k ==> newDict[j] == Entry(msg[j].key, ReplaceValue(msg[j].value, placeholder, target))
        invariant forall j :: 0 <= j < k ==> msg[j].value.Str?
        invariant found <==> SomeChanged(ms[..i], placeholder, target)
                             || exists j :: 0 <= j < k && Replace(msg[j].value.s, placeholder, target) != msg[j].value.s
      {
        var value := msg[k].value;
        if !value.Str? {
          assert !AllStrings(ms) by {
            assert ms[i][k].value == value;
          }
          return Err(AttributeError);
        }
        var newValue := Replace(value.s, placeholder, target);
        if newValue != value.s {
          found := true;
        }
        newDict := newDict + [Entry(msg[k].key, Str(newValue))];
      }
      assert newDict == ReplaceMsg(msg, placeholder, target);
      newPrompts := newPrompts + [newDict];
      assert ms[..i + 1] == ms[..i] + [msg];
      SomeChangedSnoc(ms[..i], msg, placeholder, target);
    }
    assert ms[..|ms|] == ms;
    assert AllStrings(ms);
    assert found <==> SomeChanged(ms, placeholder, target);
    if !found {
      return Err(ValueError);
    }
    assert newPrompts == ReplaceMsgs(ms, placeholder, target);
    return Ok(Prompt(newPrompts));
  }

  lemma SomeChangedSnoc(ms: seq<Msg>, m: Msg, placeholder: string, target: string)
    requires forall k :: 0 <= k < |m| ==> m[k].value.Str?
    ensures SomeChanged(ms + [m], placeholder, target)
            <==> SomeChanged(ms, placeholder, target)
                 || exists k :: 0 <= k < |m| && Replace(m[k].value.s, placeholder, target) != m[k].value.s
  {
    var all := ms + [m];
    if SomeChanged(all, placeholder, target) {
      var i, k :| 0 <= i < |all| && 0 <= k < |all[i]| && all[i][k].value.Str?
                  && Replace(all[i][k].value.s, placeholder, target) != all[i][k].value.s;
      if i < |ms| {
        assert all[i] == ms[i];
      }
    }
    if SomeChanged(ms, placeholder, target) {
      var i, k :| 0 <= i < |ms| && 0 <= k < |ms[i]| && ms[i][k].value.Str?
                  && Replace(ms[i][k].value.s, placeholder, target) != ms[i][k].value.s;
      assert all[i] == ms[i];
    }
    if exists k :: 0 <= k < |m| && Replace(m[k].value.s, placeholder, target) != m[k].value.s {
      var k :| 0 <= k < |m| && Replace(m[k].value.s, placeholder, target) != m[k].value.s;
      assert all[|ms|] == m;
    }
  }

  /** With a non-empty placeholder, `replace` succeeds exactly when every
      value is a string, the target differs from the placeholder, and some
      value contains the placeholder. */
  lemma ReplaceSucceeds(p: Prompt, placeholder: string, target: string)
    requires placeholder != []
    ensures Replaced(p, placeholder, target).Ok?
            <==> AllStrings(p.messages) && target != placeholder
                 && exists i, k :: 0 <= i < |p.messages| && 0 <= k < |p.messages[i]|
                                   && Contains(p.messages[i][k].value.s, placeholder)
  {
    var ms := p.messages;
    if SomeChanged(ms, placeholder, target) {
      var i, k :| 0 <= i < |ms| && 0 <= k < |ms[i]| && ms[i][k].value.Str?
                  && Replace(ms[i][k].value.s, placeholder, target) != ms[i][k].value.s;
      ReplaceChanges(ms[i][k].value.s, placeholder, target);
    }
    if AllStrings(ms) && target != placeholder
       && exists i, k :: 0 <= i < |ms| && 0 <= k < |ms[i]| && Contains(ms[i][k].value.s, placeholder)
    {
      var i, k :| 0 <= i < |ms| && 0 <= k < |ms[i]| && Contains(ms[i][k].value.s, placeholder);
      ReplaceChanges(ms[i][k].value.s, placeholder, target);
    }
  }

  /** Replacing a placeholder by itself never succeeds: every string is
      left as it was, so `replace` raises. */
  lemma SelfReplacementRaises(p: Prompt, placeholder: string)
    ensures Replaced(p, placeholder, placeholder).Err?
  {
    if SomeChanged(p.messages, placeholder, placeholder) {
      var i, k :| 0 <= i < |p.messages| && 0 <= k < |p.messages[i]| && p.messages[i][k].value.Str?
                  && Replace(p.messages[i][k].value.s, placeholder, placeholder) != p.messages[i][k].value.s;
      ReplaceSelf(p.messages[i][k].value.s, placeholder);
    }
  }

  /** A prompt holding a user message with an image has a list value, so
      `replace` raises AttributeError whatever is replaced. */
  lemma ImageMessageRaises(p: Prompt, i: nat, content: string, url: string, placeholder: string, target: string)
    requires i < |p.messages| && url != []
    requires p.messages[i] == UserMsg(content, Some(url))
    ensures Replaced(p, placeholder, target) == Err(AttributeError)
  {
    assert !p.messages[i][1].value.Str?;
  }

  /** A successful `replace` keeps the number of messages and each message's
      keys in order, and replaces every value. */
  lemma ReplacedShape(p: Prompt, placeholder: string, target: string)
    requires Replaced(p, placeholder, target).Ok?
    ensures var q := Replaced(p, placeholder, target).value;
            |q.messages| == |p.messages|
            && forall i :: 0 <= i < |p.messages| ==>
                 Keys(q.messages[i]) == Keys(p.messages[i])
                 && forall k :: 0 <= k < |p.messages[i]| ==>
                      q.messages[i][k].value == Str(Replace(p.messages[i][k].value.s, placeholder, target))
  {
  }

  /** The parts of a chat completion response that `send_request` looks at:
      the choices (None or a list), the "error" member of its JSON form
      (absent, or a payload that is truthy when non-empty) and its text. */
  datatype ChatResponse = ChatResponse(choices: Option<seq<string>>, error: Option<string>, text: string)

  /** `send_request`'s check of the response. */
  function SendRequest(response: ChatResponse): (r: Result<string>)
    ensures r.Ok? <==> response.choices.Some? && response.choices.value != []
    ensures r.Ok? ==> r.value == response.choices.value[0]
    ensures r.Err? && response.error.Some? && response.error.value != [] ==>
              r.error == RuntimeError(response.error.value)
    ensures r.Err? && (response.error.None? || response.error.value == []) ==>
              r.error == RuntimeError("Provider returned no response choices. Response was " + response.text)
  {
    if response.choices.None? || |response.choices.value| == 0 then
      if response.error.Some? && response.error.value != [] then Err(RuntimeError(response.error.value))
      else Err(RuntimeError("Provider returned no response choices. Response was " + response.text))
    else Ok(response.choices.value[0])
  }
}
