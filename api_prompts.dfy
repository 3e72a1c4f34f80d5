/** `Prompt.replace` of ai_apis/types.py: a recursive walk over each
    message. In a string, every `\w+` name written "((name))" must have a
    replacement or ValueError is raised; then for each replacement key in
    order the string goes through `re.sub` with the pattern
    `re.escape("\(\((" + key + ")\)\)")`. Escaping a pattern that is already
    a regular expression makes it match the literal text
    `\(\((key)\)\)`, backslashes included, so a "((key))" in the prompt is
    never substituted. Lists and dicts are rewritten element by element;
    other values are kept. */
module ApiPrompts {
  import opened Base
  import opened Text
  import opened Prompts

  /** The text that `re.escape` of the default format, with `name` in place
      of `%p`, matches: the format's own backslashes are taken literally. */
  function EscapedFormat(name: string): string
  {
    "\\(\\((" + name + ")\\)\\)"
  }

  predicate IsAsciiLetter(c: char) { ('a' <= c <= 'z') || ('A' <= c <= 'Z') }

  predicate IsOctal(c: char) { '0' <= c <= '7' }

  function OctalValue(c: char): nat
    requires IsOctal(c)
  {
    c as int - '0' as int
  }

  /** The escapes `\a \b \f \n \r \t \v \\` of a `re` template. */
  function KnownEscape(c: char): Option<char>
  {
    if c == 'a' then Some('\U{07}')
    else if c == 'b' then Some('\U{08}')
    else if c == 'f' then Some('\U{0C}')
    else if c == 'n' then Some('\n')
    else if c == 'r' then Some('\r')
    else if c == 't' then Some('\t')
    else if c == 'v' then Some('\U{0B}')
    else if c == '\\' then Some('\\')
    else None
  }

  /** Index of the first `c` in `s`, if any. */
  function IndexOf(s: string, c: char): (r: Option<nat>)
    ensures r.Some? ==> r.value < |s| && s[r.value] == c
  {
    if s == [] then None
    else if s[0] == c then Some(0)
    else match IndexOf(s[1..], c)
      case None => None
      case Some(i) => Some(i + 1)
  }

  /** A group name `re` would look up by name (ASCII identifiers only). */
  predicate IsIdentifier(name: string)
  {
    name != [] && !IsDigit(name[0]) && forall k :: 0 <= k < |name| ==> IsWordChar(name[k])
  }

  /** A group number that denotes group 0, the whole match. */
  predicate IsGroupZero(name: string)
  {
    name != [] && forall k :: 0 <= k < |name| ==> name[k] == '0'
  }

  function Prefixed(p: string, r: Result<string>): Result<string>
  {
    match r
    case Ok(t) => Ok(p + t)
    case Err(e) => Err(e)
  }

  /** The replacement string of `re.sub` read as a template, for a pattern
      without groups whose match is `whole`: escapes are translated, octal
      escapes give their character, `\g<0>` and its spellings with more
      zeros give the match; a trailing backslash, an unknown escape of an
      ASCII letter, a malformed `\g<...>` and every other group reference
      raise `re.error` (`PatternError`), a group name raises IndexError; any
      other escaped character is kept with its backslash. */
  function ExpandTemplate(rep: string, whole: string): Result<string>
    decreases |rep|
  {
    if rep == [] then Ok([])
    else if rep[0] != '\\' then Prefixed([rep[0]], ExpandTemplate(rep[1..], whole))
    else if |rep| == 1 then Err(PatternError)
    else
      var c := rep[1];
      if c == 'g' then
        if |rep| == 2 || rep[2] != '<' then Err(PatternError)
        else
          match IndexOf(rep[3..], '>')
          case None => Err(PatternError)
          case Some(j) =>
            var name := rep[3..3 + j];
            if IsGroupZero(name) then Prefixed(whole, ExpandTemplate(rep[4 + j..], whole))
            else if IsIdentifier(name) then Err(IndexError)
            else Err(PatternError)
      else if c == '0' then
        if |rep| > 2 && IsOctal(rep[2]) then
          if |rep| > 3 && IsOctal(rep[3]) then
            Prefixed([(8 * OctalValue(rep[2]) + OctalValue(rep[3])) as char], ExpandTemplate(rep[4..], whole))
          else Prefixed([OctalValue(rep[2]) as char], ExpandTemplate(rep[3..], whole))
        else Prefixed(['\U{00}'], ExpandTemplate(rep[2..], whole))
      else if IsDigit(c) then
        if |rep| > 3 && IsOctal(c) && IsOctal(rep[2]) && IsOctal(rep[3]) then
          var v := 64 * OctalValue(c) + 8 * OctalValue(rep[2]) + OctalValue(rep[3]);
          if v > 255 then Err(PatternError) else Prefixed([v as char], ExpandTemplate(rep[4..], whole))
        else Err(PatternError)
      else
        match KnownEscape(c)
        case Some(x) => Prefixed([x], ExpandTemplate(rep[2..], whole))
        case None => if IsAsciiLetter(c) then Err(PatternError) else Prefixed(['\\', c], ExpandTemplate(rep[2..], whole))
  }

  /** A template without a backslash stands for itself. */
  lemma {:induction false} LiteralTemplate(rep: string, whole: string)
    requires forall k :: 0 <= k < |rep| ==> rep[k] != '\\'
    ensures ExpandTemplate(rep, whole) == Ok(rep)
    decreases |rep|
  {
    if rep != [] {
      LiteralTemplate(rep[1..], whole);
      assert [rep[0]] + rep[1..] == rep;
    }
  }

  /** The template is parsed before any match is looked for: whether it
      raises, and what it raises, does not depend on the match. */
  lemma {:induction false} TemplateErrorIgnoresMatch(rep: string, w1: string, w2: string)
    ensures ExpandTemplate(rep, w1).Err? <==> ExpandTemplate(rep, w2).Err?
    ensures ExpandTemplate(rep, w1).Err? ==> ExpandTemplate(rep, w1).error == ExpandTemplate(rep, w2).error
    decreases |rep|
  {
    if rep == [] {
    } else if rep[0] != '\\' {
      TemplateErrorIgnoresMatch(rep[1..], w1, w2);
    } else if |rep| > 1 {
      if rep[1] == 'g' && |rep| > 2 && rep[2] == '<' && IndexOf(rep[3..], '>').Some? {
        var j := IndexOf(rep[3..], '>').value;
        TemplateErrorIgnoresMatch(rep[4 + j..], w1, w2);
      } else {
        TemplateErrorIgnoresMatch(rep[2..], w1, w2);
        if |rep| > 2 {
          TemplateErrorIgnoresMatch(rep[3..], w1, w2);
        }
        if |rep| > 3 {
          TemplateErrorIgnoresMatch(rep[4..], w1, w2);
        }
      }
    }
  }

  /** An escape of an ASCII letter that `re` does not know raises, whatever
      follows it, after a text without escapes. */
  lemma {:induction false} BadEscapeRaises(before: string, c: char, after: string, whole: string)
    requires forall k :: 0 <= k < |before| ==> before[k] != '\\'
    requires IsAsciiLetter(c) && c != 'g' && KnownEscape(c).None?
    ensures ExpandTemplate(before + ['\\', c] + after, whole) == Err(PatternError)
    decreases |before|
  {
    var t := before + ['\\', c] + after;
    if before == [] {
      assert t[0] == '\\' && t[1] == c;
    } else {
      assert t[0] == before[0] && t[1..] == before[1..] + ['\\', c] + after;
      BadEscapeRaises(before[1..], c, after, whole);
    }
  }

  /** A template ending in a lone backslash raises. */
  lemma {:induction false} TrailingBackslashRaises(before: string, whole: string)
    requires forall k :: 0 <= k < |before| ==> before[k] != '\\'
    ensures ExpandTemplate(before + "\\", whole) == Err(PatternError)
    decreases |before|
  {
    var t := before + "\\";
    if before != [] {
      assert t[0] == before[0] && t[1..] == before[1..] + "\\";
      TrailingBackslashRaises(before[1..], whole);
    }
  }

  /** `\g<0>` stands for the whole match. */
  lemma WholeMatchTemplate(whole: string)
    ensures ExpandTemplate("\\g<0>", whole) == Ok(whole)
  {
    var rep := "\\g<0>";
    assert rep[0] == '\\' && rep[1] == 'g' && rep[2] == '<';
    assert rep[3..] == "0>" && "0>"[1..] == ">";
    assert IndexOf(rep[3..], '>') == Some(1);
    assert rep[3..4] == "0" && IsGroupZero("0");
    assert rep[5..] == [];
    assert ExpandTemplate([], whole) == Ok([]) && whole + [] == whole;
  }

  /** A replacement whose value parses as a template. */
  predicate TemplateOk(r: (string, string))
  {
    ExpandTemplate(r.1, EscapedFormat(r.0)).Ok?
  }

  /** The substitution loop over the replacement keys, as written: each
      replacement is parsed as a template (and may raise) before its
      escaped pattern is looked for. */
  function SubstituteEscaped(s: string, replacements: seq<(string, string)>): Result<string>
    decreases |replacements|
  {
    if replacements == [] then Ok(s)
    else
      match ExpandTemplate(replacements[0].1, EscapedFormat(replacements[0].0))
      case Err(e) => Err(e)
      case Ok(x) => SubstituteEscaped(Replace(s, EscapedFormat(replacements[0].0), x), replacements[1..])
  }

  /** `for placeholder, replacement in replacements.items(): value = re.sub(...)` */
  method SubstituteLoop(value: string, replacements: seq<(string, string)>) returns (r: Result<string>)
    ensures r == SubstituteEscaped(value, replacements)
  {
    var cur := value;
    for j := 0 to |replacements|
      invariant SubstituteEscaped(value, replacements) == SubstituteEscaped(cur, replacements[j..])
    {
      assert replacements[j..][1..] == replacements[j + 1..];
      var t := ExpandTemplate(replacements[j].1, EscapedFormat(replacements[j].0));
      if t.Err? {
        return Err(t.error);
      }
      cur := Replace(cur, EscapedFormat(replacements[j].0), t.value);
    }
    return Ok(cur);
  }

  /** The loop raises exactly when some replacement is not a valid
      template, whatever the text; it raises the error of the first one. */
  lemma {:induction false} SubstituteFails(s: string, replacements: seq<(string, string)>)
    ensures SubstituteEscaped(s, replacements).Err?
        <==> exists k :: 0 <= k < |replacements| && !TemplateOk(replacements[k])
    ensures SubstituteEscaped(s, replacements).Err? ==>
              exists k :: 0 <= k < |replacements| && (forall j :: 0 <= j < k ==> TemplateOk(replacements[j]))
                && ExpandTemplate(replacements[k].1, EscapedFormat(replacements[k].0))
                     == Err(SubstituteEscaped(s, replacements).error)
    decreases |replacements|
  {
    if replacements != [] && TemplateOk(replacements[0]) {
      var x := ExpandTemplate(replacements[0].1, EscapedFormat(replacements[0].0)).value;
      var rest := replacements[1..];
      SubstituteFails(Replace(s, EscapedFormat(replacements[0].0), x), rest);
      assert forall k :: 0 <= k < |rest| ==> rest[k] == replacements[k + 1];
      if exists k :: 0 <= k < |replacements| && !TemplateOk(replacements[k]) {
        var k :| 0 <= k < |replacements| && !TemplateOk(replacements[k]);
        assert !TemplateOk(rest[k - 1]);
      }
      if SubstituteEscaped(s, replacements).Err? {
        var k :| 0 <= k < |rest| && (forall j :: 0 <= j < k ==> TemplateOk(rest[j]))
                 && ExpandTemplate(rest[k].1, EscapedFormat(rest[k].0)) == Err(SubstituteEscaped(s, replacements).error);
        assert forall j :: 0 <= j < k + 1 ==> TemplateOk(replacements[j]);
      }
    }
  }

  /** `replace_in_value` */
  function ReplaceInValue(v: Value, replacements: seq<(string, string)>): Result<Value>
    decreases v, 1, 0
  {
    match v
    case Str(s) =>
      if exists name | name in Placeholders(s) :: name !in KeysOf(replacements) then Err(ValueError)
      else
        (match SubstituteEscaped(s, replacements)
         case Ok(t) => Ok(Str(t))
         case Err(e) => Err(e))
    case List(items) =>
      (match ReplaceItems(items, 0, replacements)
       case Ok(r) => Ok(List(r))
       case Err(e) => Err(e))
    case Dict(entries) =>
      (match ReplaceEntries(entries, 0, replacements)
       case Ok(r) => Ok(Dict(r))
       case Err(e) => Err(e))
    case Scalar => Ok(v)
  }

  /** `[replace_in_value(item) for item in value]`, from index `i` on. */
  function ReplaceItems(items: seq<Value>, i: nat, replacements: seq<(string, string)>): Result<seq<Value>>
    requires i <= |items|
    decreases List(items), 0, |items| - i
  {
    if i == |items| then Ok([])
    else
      assert items[i] in items;
      match ReplaceInValue(items[i], replacements)
      case Err(e) => Err(e)
      case Ok(x) =>
        match ReplaceItems(items, i + 1, replacements)
        case Err(e) => Err(e)
        case Ok(rest) => Ok([x] + rest)
  }

  /** `{k: replace_in_value(v) for k, v in value.items()}`, from index `i` on. */
  function ReplaceEntries(entries: seq<Entry>, i: nat, replacements: seq<(string, string)>): Result<seq<Entry>>
    requires i <= |entries|
    decreases Dict(entries), 0, |entries| - i
  {
    if i == |entries| then Ok([])
    else
      assert entries[i] in entries;
      match ReplaceInValue(entries[i].value, replacements)
      case Err(e) => Err(e)
      case Ok(x) =>
        match ReplaceEntries(entries, i + 1, replacements)
        case Err(e) => Err(e)
        case Ok(rest) => Ok([Entry(entries[i].key, x)] + rest)
  }

  /** Two values with the same tree shape: lists of the same length, dicts
      with the same keys in the same order. */
  predicate SameShape(a: Value, b: Value)
  {
    match a
    case Str(_) => b.Str?
    case Scalar => b == Scalar
    case List(xs) => b.List? && |xs| == |b.items| && forall k :: 0 <= k < |xs| ==> SameShape(xs[k], b.items[k])
    case Dict(es) =>
      b.Dict? && |es| == |b.entries|
      && forall k :: 0 <= k < |es| ==> es[k].key == b.entries[k].key && SameShape(es[k].value, b.entries[k].value)
  }

  /** A string is rejected exactly when it holds a "((name))" occurrence
      whose name has no replacement (ValueError, checked first) or when
      some replacement is not a valid template. */
  lemma StringRejected(s: string, replacements: seq<(string, string)>)
    ensures ReplaceInValue(Str(s), replacements).Err?
        <==> (exists i, name :: PlaceholderAt(s, i, name) && name !in KeysOf(replacements))
             || (exists k :: 0 <= k < |replacements| && !TemplateOk(replacements[k]))
    ensures (exists i, name :: PlaceholderAt(s, i, name) && name !in KeysOf(replacements))
            ==> ReplaceInValue(Str(s), replacements) == Err(ValueError)
  {
    SubstituteFails(s, replacements);
    if exists name | name in Placeholders(s) :: name !in KeysOf(replacements) {
      var name :| name in Placeholders(s) && name !in KeysOf(replacements);
      PlaceholdersFound(s, name);
    }
    if exists i, name :: PlaceholderAt(s, i, name) && name !in KeysOf(replacements) {
      var i, name :| PlaceholderAt(s, i, name) && name !in KeysOf(replacements);
      PlaceholdersFound(s, name);
    }
  }

  /** The escaped pattern begins with a backslash, so a string without one
      is never changed by the substitution loop. */
  lemma {:induction false} EscapedNeverFires(s: string, replacements: seq<(string, string)>)
    requires forall k :: 0 <= k < |s| ==> s[k] != '\\'
    ensures SubstituteEscaped(s, replacements).Ok? ==> SubstituteEscaped(s, replacements).value == s
    decreases |replacements|
  {
    if replacements != [] && TemplateOk(replacements[0]) {
      var x := ExpandTemplate(replacements[0].1, EscapedFormat(replacements[0].0)).value;
      NoFirstCharAbsent(s, EscapedFormat(replacements[0].0), x);
      EscapedNeverFires(s, replacements[1..]);
    }
  }

  /** A "((key))" whose key has a replacement passes the check and is left
      in place: `replace` gives back the same text, unless the value is not
      a valid template, which raises. */
  lemma PlaceholderLeftInPlace(before: string, key: string, after: string, value: string)
    requires forall k :: 0 <= k < |before| ==> before[k] != '\\'
    requires forall k :: 0 <= k < |after| ==> after[k] != '\\'
    requires key != [] && forall k :: 0 <= k < |key| ==> IsWordChar(key[k])
    requires StrCovered(before + Formatted(key) + after, {key})
    ensures ReplaceInValue(Str(before + Formatted(key) + after), [(key, value)])
              == if TemplateOk((key, value)) then Ok(Str(before + Formatted(key) + after))
                 else Err(ExpandTemplate(value, EscapedFormat(key)).error)
  {
    var s := before + Formatted(key) + after;
    var reps := [(key, value)];
    assert KeysOf(reps) == {key};
    forall k | 0 <= k < |s|
      ensures s[k] != '\\'
    {
      if k >= |before| && k < |before| + |key| + 4 {
        assert s[k] == Formatted(key)[k - |before|];
        assert s[k] == '(' || s[k] == ')' || IsWordChar(s[k]);
      }
    }
    assert reps[0] == (key, value) && reps[1..] == [];
    if ExpandTemplate(value, EscapedFormat(key)).Ok? {
      var x := ExpandTemplate(value, EscapedFormat(key)).value;
      NoFirstCharAbsent(s, EscapedFormat(key), x);
      assert SubstituteEscaped(s, reps) == SubstituteEscaped(s, []);
    }
  }

  /** `replace` on a value keeps its shape. */
  lemma {:induction false} ReplaceKeepsShape(v: Value, replacements: seq<(string, string)>)
    requires ReplaceInValue(v, replacements).Ok?
    ensures SameShape(v, ReplaceInValue(v, replacements).value)
    decreases v, 1, 0
  {
    match v
    case Str(_) =>
    case Scalar =>
    case List(items) =>
      ItemsKeepShape(items, 0, replacements);
    case Dict(entries) =>
      EntriesKeepShape(entries, 0, replacements);
  }

  lemma {:induction false} ItemsKeepShape(items: seq<Value>, i: nat, replacements: seq<(string, string)>)
    requires i <= |items| && ReplaceItems(items, i, replacements).Ok?
    ensures var r := ReplaceItems(items, i, replacements).value;
            |r| == |items| - i && forall k :: 0 <= k < |r| ==> SameShape(items[i + k], r[k])
    decreases List(items), 0, |items| - i
  {
    if i < |items| {
      assert items[i] in items;
      ReplaceKeepsShape(items[i], replacements);
      ItemsKeepShape(items, i + 1, replacements);
    }
  }

  lemma {:induction false} EntriesKeepShape(entries: seq<Entry>, i: nat, replacements: seq<(string, string)>)
    requires i <= |entries| && ReplaceEntries(entries, i, replacements).Ok?
    ensures var r := ReplaceEntries(entries, i, replacements).value;
            |r| == |entries| - i
            && forall k :: 0 <= k < |r| ==>
                 r[k].key == entries[i + k].key && SameShape(entries[i + k].value, r[k].value)
    decreases Dict(entries), 0, |entries| - i
  {
    if i < |entries| {
      assert entries[i] in entries;
      ReplaceKeepsShape(entries[i].value, replacements);
      EntriesKeepShape(entries, i + 1, replacements);
    }
  }

  /** `Prompt.replace`: every message rewritten; the first failure raises. */
  function Replaced(p: Prompt, replacements: seq<(string, string)>): Result<Prompt>
  {
    match ReplaceMessages(p.messages, 0, replacements)
    case Err(e) => Err(e)
    case Ok(ms) => Ok(Prompt(ms))
  }

  function ReplaceMessages(ms: seq<Msg>, i: nat, replacements: seq<(string, string)>): Result<seq<Msg>>
    requires i <= |ms|
    decreases |ms| - i
  {
    if i == |ms| then Ok([])
    else
      match ReplaceEntries(ms[i], 0, replacements)
      case Err(e) => Err(e)
      case Ok(m) =>
        match ReplaceMessages(ms, i + 1, replacements)
        case Err(e) => Err(e)
        case Ok(rest) => Ok([m] + rest)
  }

  /** `replace` keeps the number of messages and each message's keys, in
      order. */
  lemma {:induction false} ReplacedKeepsMessages(ms: seq<Msg>, i: nat, replacements: seq<(string, string)>)
    requires i <= |ms| && ReplaceMessages(ms, i, replacements).Ok?
    ensures var r := ReplaceMessages(ms, i, replacements).value;
            |r| == |ms| - i && forall k :: 0 <= k < |r| ==> Keys(r[k]) == Keys(ms[i + k])
    decreases |ms| - i
  {
    if i < |ms| {
      EntriesKeepShape(ms[i], 0, replacements);
      ReplacedKeepsMessages(ms, i + 1, replacements);
      var m := ReplaceEntries(ms[i], 0, replacements).value;
      assert Keys(m) == Keys(ms[i]);
    }
  }

  /** The substitution as evidently intended: the literal "((key))",
      still with the value read as a `re` template. */
  function SubstituteFormatted(s: string, replacements: seq<(string, string)>): Result<string>
    decreases |replacements|
  {
    if replacements == [] then Ok(s)
    else
      match ExpandTemplate(replacements[0].1, Formatted(replacements[0].0))
      case Err(e) => Err(e)
      case Ok(x) => SubstituteFormatted(Replace(s, Formatted(replacements[0].0), x), replacements[1..])
  }

  /** With the literal pattern, a placeholder between texts without an
      opening parenthesis is replaced by its value's expansion; a value
      without a backslash is put in as it is. */
  lemma FormattedFillsIn(before: string, key: string, after: string, value: string)
    requires forall k :: 0 <= k < |before| ==> before[k] != '('
    requires forall k :: 0 <= k < |after| ==> after[k] != '('
    ensures SubstituteFormatted(before + Formatted(key) + after, [(key, value)])
              == var x := ExpandTemplate(value, Formatted(key));
                 if x.Ok? then Ok(before + x.value + after) else Err(x.error)
    ensures (forall k :: 0 <= k < |value| ==> value[k] != '\\')
            ==> SubstituteFormatted(before + Formatted(key) + after, [(key, value)]) == Ok(before + value + after)
  {
    var pat := Formatted(key);
    var reps := [(key, value)];
    assert pat[0] == '(';
    assert reps[0].0 == key && reps[0].1 == value && reps[1..] == [];
    if ExpandTemplate(value, pat).Ok? {
      ReplaceFillsIn(before, pat, after, ExpandTemplate(value, pat).value);
    }
    if forall k :: 0 <= k < |value| ==> value[k] != '\\' {
      LiteralTemplate(value, pat);
    }
  }

}
