/** Chat prompts as the three revisions build them (core/ai_apis/api_types.py,
    ai_apis/types.py, ai.py): a list of messages, each a dict from field name
    to a string, a list or a nested dict. The three revisions share the
    message constructors and differ in how they fill in "((name))"
    placeholders. This module holds what they share: the value tree, the
    constructors, and the placeholder scan `re.findall(r"\(\(\w+\)\)", ...)`. */
module Prompts {
  import opened Base
  import opened Text

  /** A value inside a chat message. Dict entries keep insertion order. */
  datatype Value = Str(s: string) | List(items: seq<Value>) | Dict(entries: seq<Entry>) | Scalar

  datatype Entry = Entry(key: string, value: Value)

  /** A chat message: a dict, its entries in insertion order. */
  type Msg = seq<Entry>

  datatype Prompt = Prompt(messages: seq<Msg>)

  /** The field names of a message, in order. */
  function Keys(m: Msg): seq<string>
  {
    seq(|m|, k requires 0 <= k < |m| => m[k].key)
  }

  /** `m.get(key)` */
  function Lookup(m: Msg, key: string): Option<Value>
  {
    if m == [] then None else if m[0].key == key then Some(m[0].value) else Lookup(m[1..], key)
  }

  /** `Prompt.plus`: a new prompt with one more message at the end. */
  function Plus(p: Prompt, m: Msg): Prompt
  {
    Prompt(p.messages + [m])
  }

  function SystemMsg(content: string): Msg
  {
    [Entry("role", Str("system")), Entry("content", Str(content))]
  }

  /** A user message; a non-empty image URL (Python truthiness) turns the
      content into a text part followed by an image part. */
  function UserMsg(content: string, imageUrl: Option<string>): Msg
  {
    if imageUrl.Some? && imageUrl.value != [] then
      [Entry("role", Str("user")),
       Entry("content", List([
         Dict([Entry("type", Str("text")), Entry("text", Str(content))]),
         Dict([Entry("type", Str("image_url")), Entry("image_url", Dict([Entry("url", Str(imageUrl.value))]))])]))]
    else
      [Entry("role", Str("user")), Entry("content", Str(content))]
  }

  function AssistantMsg(content: string): Msg
  {
    [Entry("role", Str("assistant")), Entry("content", Str(content))]
  }

  /** The role a message declares, when it is a string. */
  function Role(m: Msg): Option<string>
  {
    match Lookup(m, "role")
    case Some(Str(r)) => Some(r)
    case _ => None
  }

  /** The text a model reads in a message: a plain string content, or the
      "text" part of a part list. */
  function TextOf(m: Msg): Option<string>
  {
    match Lookup(m, "content")
    case Some(Str(t)) => Some(t)
    case Some(List(parts)) =>
      if |parts| >= 1 && parts[0].Dict? && Lookup(parts[0].entries, "type") == Some(Str("text"))
         && Lookup(parts[0].entries, "text").Some? && Lookup(parts[0].entries, "text").value.Str?
      then Some(Lookup(parts[0].entries, "text").value.s)
      else None
    case _ => None
  }

  /** The image URL of a message with an image part. */
  function ImageOf(m: Msg): Option<string>
  {
    match Lookup(m, "content")
    case Some(List(parts)) =>
      if |parts| >= 2 && parts[1].Dict? && Lookup(parts[1].entries, "type") == Some(Str("image_url"))
         && Lookup(parts[1].entries, "image_url").Some? && Lookup(parts[1].entries, "image_url").value.Dict?
      then
        match Lookup(Lookup(parts[1].entries, "image_url").value.entries, "url")
        case Some(Str(u)) => Some(u)
        case _ => None
      else None
    case _ => None
  }

  /** Each constructor gives a {"role", "content"} dict with its role, and
      the content reads back as the text given; only a user message with a
      non-empty image URL carries that URL. */
  lemma MessageConstructors(content: string, imageUrl: Option<string>)
    ensures Keys(SystemMsg(content)) == ["role", "content"] && Role(SystemMsg(content)) == Some("system")
    ensures TextOf(SystemMsg(content)) == Some(content) && ImageOf(SystemMsg(content)) == None
    ensures Keys(AssistantMsg(content)) == ["role", "content"] && Role(AssistantMsg(content)) == Some("assistant")
    ensures TextOf(AssistantMsg(content)) == Some(content) && ImageOf(AssistantMsg(content)) == None
    ensures var m := UserMsg(content, imageUrl);
            Keys(m) == ["role", "content"] && Role(m) == Some("user") && TextOf(m) == Some(content)
            && ImageOf(m) == if imageUrl.Some? && imageUrl.value != [] then imageUrl else None
  {
    assert "role" != "content";
    assert "type" != "text" by { assert "type"[1] != "text"[1]; }
    var sys := SystemMsg(content);
    assert Lookup(sys, "content") == Some(Str(content)) by { assert sys[1..] == [Entry("content", Str(content))]; }
    var asst := AssistantMsg(content);
    assert Lookup(asst, "content") == Some(Str(content)) by { assert asst[1..] == [Entry("content", Str(content))]; }
    var m := UserMsg(content, imageUrl);
    assert Lookup(m, "content") == Some(m[1].value) by { assert m[1..] == [m[1]]; }
    if imageUrl.Some? && imageUrl.value != [] {
      var parts := m[1].value.items;
      var textPart := parts[0].entries;
      assert Lookup(textPart, "type") == Some(Str("text"));
      assert Lookup(textPart, "text") == Some(Str(content)) by { assert textPart[1..] == [textPart[1]]; }
      var imagePart := parts[1].entries;
      assert Lookup(imagePart, "type") == Some(Str("image_url"));
      assert Lookup(imagePart, "image_url") == Some(imagePart[1].value) by { assert imagePart[1..] == [imagePart[1]]; }
      assert Lookup(imagePart[1].value.entries, "url") == Some(Str(imageUrl.value));
    }
  }

  /** The length of the run of `\w` characters `s` starts with. */
  function WordRun(s: string): (n: nat)
    ensures n <= |s|
    ensures forall k :: 0 <= k < n ==> IsWordChar(s[k])
    ensures n < |s| ==> !IsWordChar(s[n])
  {
    if s == [] || !IsWordChar(s[0]) then 0 else 1 + WordRun(s[1..])
  }

  /** "((name))" with a non-empty `\w+` name occurs in `s` at index `i`. */
  predicate PlaceholderAt(s: string, i: int, name: string)
  {
    name != [] && (forall k :: 0 <= k < |name| ==> IsWordChar(name[k]))
    && OccursAt(s, "((" + name + "))", i)
  }

  /** The name of the placeholder `s` starts with, if it starts with one. */
  function MatchAt(s: string): Option<string>
  {
    if StartsWith(s, "((") && WordRun(s[2..]) > 0 && StartsWith(s[2 + WordRun(s[2..])..], "))")
    then Some(s[2..2 + WordRun(s[2..])])
    else None
  }

  /** `re.findall(r"\(\(\w+\)\)", s)` with the parentheses removed from each
      match: scan left to right, resuming after each match. */
  function Placeholders(s: string): seq<string>
    decreases |s|
  {
    if s == [] then []
    else match MatchAt(s)
      case Some(name) => [name] + Placeholders(s[|name| + 4..])
      case None => Placeholders(s[1..])
  }

  lemma MatchAtExactly(s: string, name: string)
    ensures MatchAt(s) == Some(name) <==> PlaceholderAt(s, 0, name)
  {
    if PlaceholderAt(s, 0, name) {
      var t := s[2..];
      assert s[..|name| + 4] == "((" + name + "))";
      assert t[..|name|] == name;
      assert |name| < |t| && t[|name|] == ')';
      WordRunOf(t, |name|);
      assert s[2 + |name|..][..2] == "))";
      assert s[2..2 + |name|] == name;
      assert StartsWith(s, "((") && StartsWith(s[2 + |name|..], "))");
      assert MatchAt(s) == Some(name);
    }
    if MatchAt(s) == Some(name) {
      var n := WordRun(s[2..]);
      assert name == s[2..2 + n];
      assert s[..2] == "((";
      assert s[2 + n..][..2] == "))";
      assert s[0..0 + |name| + 4] == s[..2] + s[2..2 + n] + s[2 + n..][..2];
      assert s[0..0 + |"((" + name + "))"|] == "((" + name + "))";
      assert OccursAt(s, "((" + name + "))", 0);
      assert forall k :: 0 <= k < |name| ==> IsWordChar(name[k]) by {
        forall k | 0 <= k < |name| ensures IsWordChar(name[k]) {
          assert name[k] == s[2..][k];
        }
      }
    }
  }

  /** A run of word characters followed by a non-word character is the
      whole word run. */
  lemma {:induction false} WordRunOf(t: string, n: nat)
    requires n < |t| && (forall k :: 0 <= k < n ==> IsWordChar(t[k])) && !IsWordChar(t[n])
    ensures WordRun(t) == n
  {
    if n > 0 {
      WordRunOf(t[1..], n - 1);
    }
  }

  /** A placeholder match cannot start inside another one, so resuming after
      a match loses nothing: the names found are exactly the names of all
      placeholder occurrences. */
  lemma {:induction false} PlaceholdersFound(s: string, name: string)
    ensures name in Placeholders(s) <==> exists i :: PlaceholderAt(s, i, name)
    decreases |s|
  {
    if s != [] {
      match MatchAt(s)
      case Some(w) =>
        PlaceholdersFound(s[|w| + 4..], name);
        FoundAfterMatch(s, w, s[|w| + 4..], name);
      case None =>
        PlaceholdersFound(s[1..], name);
        FoundAfterMiss(s, s[1..], name);
    }
  }

  /** The step of `PlaceholdersFound` past a match of `w` at the start. */
  lemma FoundAfterMatch(s: string, w: string, rest: string, name: string)
    requires s != [] && MatchAt(s) == Some(w) && rest == s[|w| + 4..]
    requires name in Placeholders(rest) <==> exists i :: PlaceholderAt(rest, i, name)
    ensures name in Placeholders(s) <==> exists i :: PlaceholderAt(s, i, name)
  {
    assert Placeholders(s) == [w] + Placeholders(rest);
    MatchAtExactly(s, w);
    if name in Placeholders(s) {
      if name == w {
        assert PlaceholderAt(s, 0, name);
      } else {
        assert name in Placeholders(rest);
        var i :| PlaceholderAt(rest, i, name);
        ShiftPlaceholder(s, |w| + 4, i, name);
      }
    }
    if exists i :: PlaceholderAt(s, i, name) {
      var i :| PlaceholderAt(s, i, name);
      if i == 0 {
        MatchAtExactly(s, name);
      } else {
        NoOverlap(s, w, i, name);
        UnshiftPlaceholder(s, |w| + 4, i, name);
      }
    }
  }

  /** The step of `PlaceholdersFound` past a first character that starts
      no match. */
  lemma FoundAfterMiss(s: string, tail: string, name: string)
    requires s != [] && MatchAt(s) == None && tail == s[1..]
    requires name in Placeholders(tail) <==> exists i :: PlaceholderAt(tail, i, name)
    ensures name in Placeholders(s) <==> exists i :: PlaceholderAt(s, i, name)
  {
    assert Placeholders(s) == Placeholders(tail);
    if name in Placeholders(s) {
      var i :| PlaceholderAt(tail, i, name);
      ShiftPlaceholder(s, 1, i, name);
    }
    if exists i :: PlaceholderAt(s, i, name) {
      var i :| PlaceholderAt(s, i, name);
      if i == 0 {
        MatchAtExactly(s, name);
        assert false;
      }
      UnshiftPlaceholder(s, 1, i, name);
    }
  }

  lemma ShiftPlaceholder(s: string, d: nat, i: int, name: string)
    requires d <= |s| && PlaceholderAt(s[d..], i, name)
    ensures PlaceholderAt(s, i + d, name)
  {
    assert s[i + d..i + d + |name| + 4] == s[d..][i..i + |name| + 4];
  }

  lemma UnshiftPlaceholder(s: string, d: nat, i: int, name: string)
    requires d <= i && PlaceholderAt(s, i, name)
    ensures PlaceholderAt(s[d..], i - d, name)
  {
    assert s[i..i + |name| + 4] == s[d..][i - d..i - d + |name| + 4];
  }

  /** A placeholder occurrence after the start of a match lies past its end. */
  lemma NoOverlap(s: string, w: string, i: int, name: string)
    requires MatchAt(s) == Some(w) && PlaceholderAt(s, i, name) && i > 0
    ensures i >= |w| + 4
  {
    var n := |w|;
    assert s[i] == '(' && s[i + 1] == '(' by {
      assert s[i..i + |name| + 4][0] == '(' && s[i..i + |name| + 4][1] == '(';
    }
    assert s[1] == '(' && IsWordChar(s[2]) by {
      assert s[..2] == "((";
      assert s[2..][0] == s[2];
    }
  }

  /** Every placeholder name in the keys and strings of `v` is one of `keys`. */
  predicate Covered(v: Value, keys: set<string>)
  {
    match v
    case Str(s) => StrCovered(s, keys)
    case List(items) => forall x | x in items :: Covered(x, keys)
    case Dict(entries) => forall e | e in entries :: StrCovered(e.key, keys) && Covered(e.value, keys)
    case Scalar => true
  }

  predicate StrCovered(s: string, keys: set<string>)
  {
    forall name | name in Placeholders(s) :: name in keys
  }

  /** Adding keys never uncovers a placeholder. */
  lemma {:induction false} CoveredMonotone(v: Value, keys: set<string>, more: set<string>)
    requires Covered(v, keys) && keys <= more
    ensures Covered(v, more)
  {
    match v
    case Str(s) =>
    case List(items) =>
      forall x | x in items
        ensures Covered(x, more)
      {
        CoveredMonotone(x, keys, more);
      }
    case Dict(entries) =>
      forall e | e in entries
        ensures StrCovered(e.key, more) && Covered(e.value, more)
      {
        CoveredMonotone(e.value, keys, more);
      }
    case Scalar =>
  }

  /** The keys of a Python dict of replacements, in order. */
  function KeysOf(replacements: seq<(string, string)>): set<string>
  {
    set p | p in replacements :: p.0
  }

  /** "((name))" */
  function Formatted(name: string): string
  {
    "((" + name + "))"
  }

  /** A text with no "((" anywhere has no placeholders. */
  lemma {:induction false} NoDoubleOpenNoPlaceholders(t: string)
    requires forall k :: 0 <= k < |t| - 1 ==> !(t[k] == '(' && t[k + 1] == '(')
    ensures Placeholders(t) == []
    decreases |t|
  {
    if t != [] {
      assert !StartsWith(t, "((") by {
        if |t| >= 2 { assert t[..2][0] == t[0] && t[..2][1] == t[1]; }
      }
      assert Placeholders(t) == Placeholders(t[1..]);
      NoDoubleOpenNoPlaceholders(t[1..]);
    }
  }

  /** Placeholders written with non-word characters are not detected. */
  lemma SpacedNameNotDetected()
    ensures Placeholders("((a b))") == []
  {
    var s := "((a b))";
    assert MatchAt(s) == None by {
      assert s[2..][1] == ' ';
      WordRunOf(s[2..], 1);
      assert s[3..][..2] != "))" by {
        assert s[3..][0] == ' ';
      }
    }
    assert Placeholders(s) == Placeholders(s[1..]);
    NoDoubleOpenNoPlaceholders(s[1..]);
  }
}
