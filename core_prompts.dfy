/** `Prompt.replace` of core/ai_apis/api_types.py. First every "((name))"
    in the JSON form of the messages must have a replacement, or ValueError
    is raised before anything is substituted. (The JSON form escapes
    non-ASCII characters and quotes with a backslash, so the placeholders it
    shows are exactly the ASCII ones inside the dict keys and strings.) Then,
    message by message and key by key in dict order, `replace_all_in_dict`
    substitutes "((key))" in every string field. That helper raises
    ValueError at a list-valued field, and at a dict-valued field it calls
    itself on the enclosing dict again instead of the nested one, so it
    recurses until the interpreter's recursion limit raises RecursionError. */
module CorePrompts {
  import opened Base
  import opened Text
  import opened Prompts

  /** The depth at which the interpreter raises RecursionError. */
  const RECURSION_LIMIT: nat := 1000

  /** The first field whose value is not a string, if any. */
  function FirstNonString(d: Msg): (r: Option<nat>)
    ensures r.Some? ==> r.value < |d| && !d[r.value].value.Str?
    ensures r.Some? ==> forall k :: 0 <= k < r.value ==> d[k].value.Str?
    ensures r.None? <==> forall k :: 0 <= k < |d| ==> d[k].value.Str?
  {
    if d == [] then None
    else if !d[0].value.Str? then Some(0)
    else match FirstNonString(d[1..])
      case None => None
      case Some(j) => Some(j + 1)
  }

  /** `v.replace(pat, rep)` on a string value; other values as they are. */
  function ReplaceString(v: Value, pat: string, rep: string): Value
  {
    if v.Str? then Str(Replace(v.s, pat, rep)) else v
  }

  /** What `replace_all_in_dict(d, pat, rep)` ends with: when every value is
      a string, the dict with `pat` replaced in each; otherwise the first
      non-string value decides: a dict means endless recursion, anything
      else a ValueError. */
  function DictReplaced(d: Msg, pat: string, rep: string): Result<Msg>
  {
    match FirstNonString(d)
    case None => Ok(seq(|d|, k requires 0 <= k < |d| => Entry(d[k].key, ReplaceString(d[k].value, pat, rep))))
    case Some(j) => if d[j].value.Dict? then Err(RecursionError) else Err(ValueError)
  }

  /** `replace_all_in_dict`, at recursion depth `depth`. */
  method ReplaceAllInDict(dictData: Msg, pat: string, rep: string, depth: nat) returns (r: Result<Msg>)
    ensures r == if depth >= RECURSION_LIMIT then Err(RecursionError) else DictReplaced(dictData, pat, rep)
    decreases RECURSION_LIMIT - depth
  {
    if depth >= RECURSION_LIMIT {
      return Err(RecursionError);
    }
    var replacedDict := dictData;
    for i := 0 to |dictData|
      invariant |replacedDict| == |dictData|
      invariant forall k :: 0 <= k < |dictData| ==> replacedDict[k].key == dictData[k].key
      invariant forall k :: 0 <= k < i ==>
                  (dictData[k].value.Str? && replacedDict[k].value == ReplaceString(dictData[k].value, pat, rep))
      invariant forall k :: i <= k < |dictData| ==> replacedDict[k] == dictData[k]
    {
      var v := dictData[i].value;
      if v.Str? {
        replacedDict := replacedDict[i := Entry(dictData[i].key, Str(Replace(v.s, pat, rep)))];
      } else if v.Dict? {
        // The recursive call is given the enclosing dict, whose field i is
        // still this same dict, so it never returns normally.
        assert FirstNonString(replacedDict) == Some(i);
        r := ReplaceAllInDict(replacedDict, pat, rep, depth + 1);
        return;
      } else {
        return Err(ValueError);
      }
    }
    assert FirstNonString(dictData).None?;
    var expected := seq(|dictData|, k requires 0 <= k < |dictData| =>
                          Entry(dictData[k].key, ReplaceString(dictData[k].value, pat, rep)));
    assert forall k :: 0 <= k < |dictData| ==> replacedDict[k] == expected[k];
    assert replacedDict == expected;
    return Ok(replacedDict);
  }

  /** One message after the inner loop: each replacement in dict order. */
  function MessageReplaced(m: Msg, replacements: seq<(string, string)>): Result<Msg>
    decreases |replacements|
  {
    if replacements == [] then Ok(m)
    else match DictReplaced(m, Formatted(replacements[0].0), replacements[0].1)
      case Err(e) => Err(e)
      case Ok(m') => MessageReplaced(m', replacements[1..])
  }

  /** All messages after the outer loop; the first failing message raises. */
  function MessagesReplaced(ms: seq<Msg>, replacements: seq<(string, string)>): Result<seq<Msg>>
  {
    if ms == [] then Ok([])
    else match MessagesReplaced(ms[..|ms| - 1], replacements)
      case Err(e) => Err(e)
      case Ok(done) =>
        match MessageReplaced(ms[|ms| - 1], replacements)
        case Err(e) => Err(e)
        case Ok(m) => Ok(done + [m])
  }

  /** Every placeholder in every message has a replacement. */
  predicate AllCovered(ms: seq<Msg>, keys: set<string>)
  {
    forall m | m in ms :: Covered(Dict(m), keys)
  }

  /** What `replace` returns or raises. */
  function Replaced(p: Prompt, replacements: seq<(string, string)>): Result<Prompt>
  {
    if !AllCovered(p.messages, KeysOf(replacements)) then Err(ValueError)
    else match MessagesReplaced(p.messages, replacements)
      case Err(e) => Err(e)
      case Ok(ms) => Ok(Prompt(ms))
  }

  /** `Prompt.replace(replacements)` */
  method ReplacePlaceholders(p: Prompt, replacements: seq<(string, string)>) returns (r: Result<Prompt>)
    ensures r == Replaced(p, replacements)
  {
    var keys := KeysOf(replacements);
    if exists k | 0 <= k < |p.messages| :: !Covered(Dict(p.messages[k]), keys) {
      return Err(ValueError);
    }
    var modifiedMessages: seq<Msg> := [];
    for i := 0 to |p.messages|
      invariant MessagesReplaced(p.messages[..i], replacements) == Ok(modifiedMessages)
    {
      var modifiedMessage := p.messages[i];
      for j := 0 to |replacements|
        invariant MessageReplaced(p.messages[i], replacements) == MessageReplaced(modifiedMessage, replacements[j..])
      {
        assert replacements[j..][1..] == replacements[j + 1..] && replacements[j..][0] == replacements[j];
        var res := ReplaceAllInDict(modifiedMessage, Formatted(replacements[j].0), replacements[j].1, 0);
        if res.Err? {
          assert p.messages[..i + 1][..i] == p.messages[..i];
          ErrorPropagates(p.messages, i + 1, replacements);
          return Err(res.error);
        }
        modifiedMessage := res.value;
      }
      assert p.messages[..i + 1][..i] == p.messages[..i];
      modifiedMessages := modifiedMessages + [modifiedMessage];
    }
    assert p.messages[..|p.messages|] == p.messages;
    return Ok(Prompt(modifiedMessages));
  }

  /** A failing message makes every longer list of messages fail the same way. */
  lemma {:induction false} ErrorPropagates(ms: seq<Msg>, n: nat, replacements: seq<(string, string)>)
    requires n <= |ms| && MessagesReplaced(ms[..n], replacements).Err?
    ensures MessagesReplaced(ms, replacements) == MessagesReplaced(ms[..n], replacements)
    decreases |ms| - n
  {
    if n < |ms| {
      assert ms[..n + 1][..n] == ms[..n];
      ErrorPropagates(ms, n + 1, replacements);
    } else {
      assert ms[..n] == ms;
    }
  }

  /** A placeholder with no replacement raises ValueError, whatever else the
      prompt holds. */
  lemma MissingPlaceholderRaises(p: Prompt, replacements: seq<(string, string)>, m: Msg, name: string)
    requires m in p.messages && Lookup(m, "content").Some? && Lookup(m, "content").value.Str?
    requires name in Placeholders(Lookup(m, "content").value.s) && name !in KeysOf(replacements)
    ensures Replaced(p, replacements) == Err(ValueError)
  {
    LookupIn(m, "content");
    var s := Lookup(m, "content").value.s;
    var keys := KeysOf(replacements);
    assert !StrCovered(s, keys);
    assert !Covered(Dict(m), keys) by {
      assert Entry("content", Str(s)) in m;
    }
  }

  lemma {:induction false} LookupIn(m: Msg, key: string)
    requires Lookup(m, key).Some?
    ensures Entry(key, Lookup(m, key).value) in m
  {
    if m[0].key != key {
      LookupIn(m[1..], key);
    }
  }

  /** Replacements for placeholders that occur nowhere cause no error. */
  lemma UnusedKeysHarmless(ms: seq<Msg>, keys: set<string>, more: set<string>)
    requires AllCovered(ms, keys) && keys <= more
    ensures AllCovered(ms, more)
  {
    forall m | m in ms
      ensures Covered(Dict(m), more)
    {
      CoveredMonotone(Dict(m), keys, more);
    }
  }

  /** A successful replacement keeps each field name in its place. */
  lemma {:induction false} DictReplacedShape(d: Msg, pat: string, rep: string)
    requires DictReplaced(d, pat, rep).Ok?
    ensures Keys(DictReplaced(d, pat, rep).value) == Keys(d)
    ensures forall k :: 0 <= k < |d| ==> d[k].value.Str? && DictReplaced(d, pat, rep).value[k].value.Str?
  {
  }

  lemma {:induction false} MessageReplacedShape(m: Msg, replacements: seq<(string, string)>)
    requires MessageReplaced(m, replacements).Ok?
    ensures Keys(MessageReplaced(m, replacements).value) == Keys(m)
    decreases |replacements|
  {
    if replacements != [] {
      var d := DictReplaced(m, Formatted(replacements[0].0), replacements[0].1);
      DictReplacedShape(m, Formatted(replacements[0].0), replacements[0].1);
      MessageReplacedShape(d.value, replacements[1..]);
    }
  }

  /** `replace` keeps the number and order of messages and each message's
      field names. */
  lemma {:induction false} ReplacedShape(p: Prompt, replacements: seq<(string, string)>)
    requires Replaced(p, replacements).Ok?
    ensures var q := Replaced(p, replacements).value;
            |q.messages| == |p.messages|
            && forall k :: 0 <= k < |p.messages| ==> Keys(q.messages[k]) == Keys(p.messages[k])
  {
    MessagesReplacedShape(p.messages, replacements);
  }

  lemma {:induction false} MessagesReplacedShape(ms: seq<Msg>, replacements: seq<(string, string)>)
    requires MessagesReplaced(ms, replacements).Ok?
    ensures var out := MessagesReplaced(ms, replacements).value;
            |out| == |ms| && forall k :: 0 <= k < |ms| ==> Keys(out[k]) == Keys(ms[k])
  {
    if ms != [] {
      MessagesReplacedShape(ms[..|ms| - 1], replacements);
      MessageReplacedShape(ms[|ms| - 1], replacements);
    }
  }

  /** A message of string fields none of which holds "((key))" for any
      replacement key comes back unchanged. */
  lemma {:induction false} AbsentPlaceholdersUnchanged(m: Msg, replacements: seq<(string, string)>)
    requires forall k :: 0 <= k < |m| ==> m[k].value.Str?
    requires forall k, p :: 0 <= k < |m| && p in replacements ==> !Contains(m[k].value.s, Formatted(p.0))
    ensures MessageReplaced(m, replacements) == Ok(m)
    decreases |replacements|
  {
    if replacements != [] {
      var pat := Formatted(replacements[0].0);
      forall k | 0 <= k < |m|
        ensures Replace(m[k].value.s, pat, replacements[0].1) == m[k].value.s
      {
        ReplaceAbsent(m[k].value.s, pat, replacements[0].1);
      }
      assert FirstNonString(m).None?;
      var d := seq(|m|, k requires 0 <= k < |m| => Entry(m[k].key, ReplaceString(m[k].value, pat, replacements[0].1)));
      assert forall k :: 0 <= k < |m| ==> d[k] == m[k];
      assert d == m;
      assert DictReplaced(m, pat, replacements[0].1) == Ok(m);
      AbsentPlaceholdersUnchanged(m, replacements[1..]);
    }
  }

  /** An image message (its content a list) cannot be filled in: with at
      least one replacement, `replace` raises ValueError. */
  lemma ImageMessageRaises(content: string, url: string, replacements: seq<(string, string)>)
    requires url != [] && replacements != []
    ensures Replaced(Prompt([UserMsg(content, Some(url))]), replacements) == Err(ValueError)
  {
    var m := UserMsg(content, Some(url));
    assert FirstNonString(m) == Some(1);
    assert MessageReplaced(m, replacements) == Err(ValueError);
    assert [m][..|[m]| - 1] == [] && [m][|[m]| - 1] == m;
    assert MessagesReplaced([m], replacements) == Err(ValueError);
  }

  /** A dict-valued field sends the helper into endless recursion. */
  lemma DictFieldRecurses(m: Msg, j: nat, replacements: seq<(string, string)>)
    requires j < |m| && m[j].value.Dict? && forall k :: 0 <= k < j ==> m[k].value.Str?
    requires replacements != [] && AllCovered([m], KeysOf(replacements))
    ensures Replaced(Prompt([m]), replacements) == Err(RecursionError)
  {
    assert FirstNonString(m) == Some(j);
    assert MessageReplaced(m, replacements) == Err(RecursionError);
    assert [m][..|[m]| - 1] == [] && [m][|[m]| - 1] == m;
    assert MessagesReplaced([m], replacements) == Err(RecursionError);
  }

  /** With no replacements and no placeholders, `replace` gives the prompt
      back, even when a field is a list or a dict. */
  lemma {:induction false} NoReplacementsIdentity(p: Prompt)
    requires AllCovered(p.messages, {})
    ensures Replaced(p, []) == Ok(p)
  {
    assert KeysOf([]) == {};
    NoReplacementsMessages(p.messages);
  }

  lemma {:induction false} NoReplacementsMessages(ms: seq<Msg>)
    ensures MessagesReplaced(ms, []) == Ok(ms)
  {
    if ms != [] {
      var init, last := ms[..|ms| - 1], ms[|ms| - 1];
      assert init + [last] == ms;
      NoReplacementsMessages(init);
      assert MessageReplaced(last, []) == Ok(last);
    }
  }

  /** Filling in a prompt with one more message fills in the old prompt and
      the new message separately. */
  lemma {:induction false} ReplacePlus(p: Prompt, m: Msg, replacements: seq<(string, string)>)
    requires Replaced(p, replacements).Ok? && Replaced(Prompt([m]), replacements).Ok?
    ensures Replaced(Plus(p, m), replacements)
              == Ok(Plus(Replaced(p, replacements).value, Replaced(Prompt([m]), replacements).value.messages[0]))
  {
    var ms := Plus(p, m).messages;
    assert ms[..|ms| - 1] == p.messages && ms[|ms| - 1] == m;
    assert [m][..|[m]| - 1] == [] && [m][|[m]| - 1] == m;
    assert MessagesReplaced([m][..|[m]| - 1], replacements) == Ok([]);
    assert MessageReplaced(m, replacements).Ok?;
    var mv := MessageReplaced(m, replacements).value;
    assert [] + [mv] == [mv];
    assert MessagesReplaced([m], replacements) == Ok([mv]);
    assert AllCovered(ms, KeysOf(replacements));
  }
  /** The inner loop on one string field: "((key))" replaced by its value,
      key after key. */
  function ReplaceChain(s: string, replacements: seq<(string, string)>): string
    decreases |replacements|
  {
    if replacements == [] then s
    else ReplaceChain(Replace(s, Formatted(replacements[0].0), replacements[0].1), replacements[1..])
  }

  /** A message of string fields is filled in field by field, each field
      going through the whole chain. */
  lemma {:induction false} StringFieldsReplaced(m: Msg, replacements: seq<(string, string)>)
    requires forall k :: 0 <= k < |m| ==> m[k].value.Str?
    ensures MessageReplaced(m, replacements)
              == Ok(seq(|m|, k requires 0 <= k < |m| => Entry(m[k].key, Str(ReplaceChain(m[k].value.s, replacements)))))
    decreases |replacements|
  {
    if replacements != [] {
      var pat := Formatted(replacements[0].0);
      var rep := replacements[0].1;
      var d := seq(|m|, k requires 0 <= k < |m| => Entry(m[k].key, ReplaceString(m[k].value, pat, rep)));
      assert FirstNonString(m).None?;
      assert DictReplaced(m, pat, rep) == Ok(d);
      StringFieldsReplaced(d, replacements[1..]);
      var out := seq(|m|, k requires 0 <= k < |m| => Entry(m[k].key, Str(ReplaceChain(m[k].value.s, replacements))));
      var viaD := seq(|d|, k requires 0 <= k < |d| => Entry(d[k].key, Str(ReplaceChain(d[k].value.s, replacements[1..]))));
      assert MessageReplaced(m, replacements) == MessageReplaced(d, replacements[1..]);
      assert forall k :: 0 <= k < |m| ==> viaD[k] == out[k];
      assert viaD == out;
    } else {
      var out := seq(|m|, k requires 0 <= k < |m| => Entry(m[k].key, Str(ReplaceChain(m[k].value.s, replacements))));
      assert forall k :: 0 <= k < |m| ==> out[k] == m[k];
      assert out == m;
    }
  }

  /** A successful `replace` fills in each message on its own, in place. */
  lemma {:induction false} MessagesReplacedEach(ms: seq<Msg>, replacements: seq<(string, string)>)
    requires MessagesReplaced(ms, replacements).Ok?
    ensures var out := MessagesReplaced(ms, replacements).value;
            |out| == |ms|
            && forall k :: 0 <= k < |ms| ==>
                 MessageReplaced(ms[k], replacements).Ok? && out[k] == MessageReplaced(ms[k], replacements).value
  {
    if ms != [] {
      var init := ms[..|ms| - 1];
      MessagesReplacedEach(init, replacements);
      assert forall k :: 0 <= k < |init| ==> init[k] == ms[k];
    }
  }

  predicate NoParen(s: string)
  {
    forall k :: 0 <= k < |s| ==> s[k] != '('
  }

  /** A placeholder name: a non-empty run of `\w` characters. */
  predicate IsName(name: string)
  {
    name != [] && forall k :: 0 <= k < |name| ==> IsWordChar(name[k])
  }

  /** A text without an opening parenthesis goes through the chain
      unchanged. */
  lemma {:induction false} ChainNoParen(s: string, replacements: seq<(string, string)>)
    requires NoParen(s)
    ensures ReplaceChain(s, replacements) == s
    decreases |replacements|
  {
    if replacements != [] {
      NoFirstCharAbsent(s, Formatted(replacements[0].0), replacements[0].1);
      ChainNoParen(s, replacements[1..]);
    }
  }

  /** In a placeholder between texts without parentheses, the only
      opening parentheses are the placeholder's two. */
  lemma OnlyTwoParens(before: string, a: string, after: string)
    requires NoParen(before) && NoParen(after) && IsName(a)
    ensures var s := before + Formatted(a) + after;
            forall q :: 0 <= q < |s| && s[q] == '(' ==> q == |before| || q == |before| + 1
  {
    var s := before + Formatted(a) + after;
    var n := |before|;
    forall q | 0 <= q < |s| && q != n && q != n + 1
      ensures s[q] != '('
    {
      if q < n {
        assert s[q] == before[q];
      } else if q < n + 2 + |a| {
        assert s[q] == a[q - n - 2];
      } else if q >= n + 4 + |a| {
        assert s[q] == after[q - n - 4 - |a|];
      }
    }
  }

  /** The placeholder of one name never matches the placeholder of
      another, between texts without parentheses. */
  lemma DistinctPlaceholderAbsent(before: string, a: string, after: string, b: string)
    requires NoParen(before) && NoParen(after) && IsName(a) && IsName(b) && a != b
    ensures !Contains(before + Formatted(a) + after, Formatted(b))
  {
    var s := before + Formatted(a) + after;
    var fb := Formatted(b);
    var n := |before|;
    OnlyTwoParens(before, a, after);
    forall p | 0 <= p <= |s| - |fb|
      ensures !OccursAt(s, fb, p)
    {
      var w := s[p..p + |fb|];
      if p != n && p != n + 1 {
        assert w[0] != fb[0];
      } else if p == n + 1 {
        assert w[1] == a[0];
        assert w[1] != fb[1];
      } else if |a| == |b| {
        var k :| 0 <= k < |a| && a[k] != b[k];
        assert w[2 + k] == a[k] && fb[2 + k] == b[k];
      } else if |a| < |b| {
        assert w[2 + |a|] == ')' && fb[2 + |a|] == b[|a|];
      } else {
        assert w[2 + |b|] == a[|b|] && fb[2 + |b|] == ')';
      }
    }
  }

  /** A placeholder between texts without parentheses, with values without
      parentheses, ends up holding the value of its (unique) key: the other
      keys' placeholders never match it, and nothing matches after it is
      filled in. */
  lemma {:induction false} ChainFillsIn(before: string, after: string, replacements: seq<(string, string)>, i: nat)
    requires i < |replacements|
    requires NoParen(before) && NoParen(after)
    requires forall j :: 0 <= j < |replacements| ==> IsName(replacements[j].0) && NoParen(replacements[j].1)
    requires forall j :: 0 <= j < |replacements| && j != i ==> replacements[j].0 != replacements[i].0
    ensures ReplaceChain(before + Formatted(replacements[i].0) + after, replacements)
              == before + replacements[i].1 + after
    decreases i
  {
    var key := replacements[i].0;
    var s := before + Formatted(key) + after;
    var rest := replacements[1..];
    if i == 0 {
      assert Formatted(key)[0] == '(';
      ReplaceFillsIn(before, Formatted(key), after, replacements[0].1);
      var t := before + replacements[0].1 + after;
      assert NoParen(t);
      ChainNoParen(t, rest);
    } else {
      DistinctPlaceholderAbsent(before, key, after, replacements[0].0);
      ReplaceAbsent(s, Formatted(replacements[0].0), replacements[0].1);
      assert rest[i - 1] == replacements[i];
      assert forall j :: 0 <= j < |rest| ==> rest[j] == replacements[j + 1];
      ChainFillsIn(before, after, rest, i - 1);
    }
  }

  /** `replace_all_in_dict` as evidently intended: a nested dict is filled
      in by recursing into it; any other non-string value is a ValueError. */
  function FixedValue(v: Value, pat: string, rep: string): Result<Value>
    decreases v, 1, 0
  {
    match v
    case Str(t) => Ok(Str(Replace(t, pat, rep)))
    case Dict(es) =>
      (match FixedEntries(es, 0, pat, rep)
       case Ok(r) => Ok(Dict(r))
       case Err(e) => Err(e))
    case _ => Err(ValueError)
  }

  /** The fields of a dict from index `i` on, filled in. */
  function FixedEntries(es: seq<Entry>, i: nat, pat: string, rep: string): Result<seq<Entry>>
    requires i <= |es|
    decreases Dict(es), 0, |es| - i
  {
    if i == |es| then Ok([])
    else
      assert es[i] in es;
      match FixedValue(es[i].value, pat, rep)
      case Err(e) => Err(e)
      case Ok(v) =>
        match FixedEntries(es, i + 1, pat, rep)
        case Err(e) => Err(e)
        case Ok(rest) => Ok([Entry(es[i].key, v)] + rest)
  }

  /** On a dict of strings the intended helper does what the written one
      does. */
  lemma {:induction false} FixedAgreesOnStrings(d: Msg, pat: string, rep: string, i: nat)
    requires i <= |d| && forall k :: 0 <= k < |d| ==> d[k].value.Str?
    ensures DictReplaced(d, pat, rep).Ok?
    ensures FixedEntries(d, i, pat, rep) == Ok(DictReplaced(d, pat, rep).value[i..])
    decreases |d| - i
  {
    assert FirstNonString(d).None?;
    var all := DictReplaced(d, pat, rep).value;
    assert |all| == |d|;
    if i < |d| {
      FixedAgreesOnStrings(d, pat, rep, i + 1);
      assert all[i] == Entry(d[i].key, Str(Replace(d[i].value.s, pat, rep)));
      assert FixedValue(d[i].value, pat, rep) == Ok(all[i].value);
      assert FixedEntries(d, i, pat, rep) == Ok([all[i]] + all[i + 1..]);
      assert all[i..] == [all[i]] + all[i + 1..];
    } else {
      assert all[i..] == [];
    }
  }

  /** A message whose content is a dict of one text field: the written helper
      recurses without end, the intended one fills in both levels. */
  lemma NestedContent(role: string, text: string, pat: string, rep: string)
    ensures var d := [Entry("role", Str(role)), Entry("content", Dict([Entry("text", Str(text))]))];
            DictReplaced(d, pat, rep) == Err(RecursionError)
            && FixedEntries(d, 0, pat, rep)
                 == Ok([Entry("role", Str(Replace(role, pat, rep))),
                        Entry("content", Dict([Entry("text", Str(Replace(text, pat, rep)))]))])
  {
    var d := [Entry("role", Str(role)), Entry("content", Dict([Entry("text", Str(text))]))];
    assert FirstNonString(d) == Some(1);
    NestedFixedFills(role, text, pat, rep);
  }

  /** The intended helper on the nested message, one level at a time. */
  lemma NestedFixedFills(role: string, text: string, pat: string, rep: string)
    ensures FixedEntries([Entry("role", Str(role)), Entry("content", Dict([Entry("text", Str(text))]))], 0, pat, rep)
              == Ok([Entry("role", Str(Replace(role, pat, rep))),
                     Entry("content", Dict([Entry("text", Str(Replace(text, pat, rep)))]))])
  {
    var d := [Entry("role", Str(role)), Entry("content", Dict([Entry("text", Str(text))]))];
    var innerOut := [Entry("text", Str(Replace(text, pat, rep)))];
    OneStringField("text", text, pat, rep);
    assert FixedValue(d[1].value, pat, rep) == Ok(Dict(innerOut));
    var second := [Entry("content", Dict(innerOut))];
    assert FixedEntries(d, 2, pat, rep) == Ok([]);
    assert second + [] == second;
    assert FixedEntries(d, 1, pat, rep) == Ok(second);
    var first := Entry("role", Str(Replace(role, pat, rep)));
    assert FixedValue(d[0].value, pat, rep) == Ok(first.value);
    assert [first] + second == [first, Entry("content", Dict(innerOut))];
  }

  /** A dict of one string field is filled in by the intended helper. */
  lemma OneStringField(key: string, text: string, pat: string, rep: string)
    ensures FixedEntries([Entry(key, Str(text))], 0, pat, rep) == Ok([Entry(key, Str(Replace(text, pat, rep)))])
  {
    var inner := [Entry(key, Str(text))];
    var out := [Entry(key, Str(Replace(text, pat, rep)))];
    assert FixedEntries(inner, 1, pat, rep) == Ok([]);
    assert FixedValue(inner[0].value, pat, rep) == Ok(out[0].value);
    assert out + [] == out;
  }
}
