/** The `/generate_image` command (commands/image_gen_command.py): the
    prompt blocklist and the moderation verdict, the order of the
    moderation and rate-limit checks, and the reply chosen from the image
    service's JSON answer. The moderation model, the image service and the
    download of the image are oracle arguments; the classifier's few-shot
    messages are not modelled. */
module ImageGenCommand {
  import opened Base
  import opened Text
  import opened RateLimits
  import opened ConfigLoader

  const BLOCKED_WORDS := ["nsfw", "naked", "bikini", "lingerie", "sexy", "penis", "fuck", "murder", "blood"]

  const IMAGE_GEN_LIMITS := [RateLimit(3, 60)]

  const FLAGGED_REPLY := ":x: Prompt flagged"
  const RATE_LIMITED_REPLY := ":x: You are being rate limited (3 / min)"

  /** How many characters of the service's answer an error reply shows. */
  const JSON_EXCERPT := 1700

  /** Some blocked word occurs in the prompt, case kept. */
  predicate HasBlockedWord(prompt: string)
  {
    exists k | 0 <= k < |BLOCKED_WORDS| :: Contains(prompt, BLOCKED_WORDS[k])
  }

  /** Python truthiness of a JSON value. */
  predicate Truthy(v: Json)
  {
    match v
    case Null => false
    case Bool(b) => b
    case Int(i) => i != 0
    case Float(r) => r != 0.0
    case Str(s) => s != ""
    case Array(items) => items != []
    case Object(fields) => fields != []
  }

  /** The verdict rule on the classifier's decoded reply, with Python's
      short-circuit `or`: a key read only after the earlier tests failed. */
  function Verdict(data: Json): Result<bool>
  {
    match Index(data, "mentions_sexual_content")
    case Err(e) => Err(e)
    case Ok(sexual) =>
      if Truthy(sexual) then Ok(true)
      else
        match Index(data, "violent_content")
        case Err(e) => Err(e)
        case Ok(violent) =>
          if violent == Str("high") then Ok(true)
          else
            match Index(data, "graphic_content")
            case Err(e) => Err(e)
            case Ok(graphic) => Ok(graphic == Str("high"))
  }

  /** `_is_blocked_prompt` as a function: a blocked word answers true
      without asking the classifier; otherwise the verdict on the reply. */
  function Blocked(prompt: string, classify: string -> Result<Json>): Result<bool>
  {
    if HasBlockedWord(prompt) then Ok(true)
    else
      match classify(prompt)
      case Err(e) => Err(e)
      case Ok(data) => Verdict(data)
  }

  /** With the three keys present, the prompt is blocked exactly when the
      reply mentions sexual content or rates violence or gore "high"; a
      truthy first answer blocks even when the other keys are missing. */
  lemma VerdictRule(data: Json, sexual: Json, violent: Json, graphic: Json)
    requires data.Object?
    requires Lookup(data.fields, "mentions_sexual_content") == Some(sexual)
    ensures Truthy(sexual) ==> Verdict(data) == Ok(true)
    ensures Lookup(data.fields, "violent_content") == Some(violent)
            && Lookup(data.fields, "graphic_content") == Some(graphic)
            ==> Verdict(data) == Ok(Truthy(sexual) || violent == Str("high") || graphic == Str("high"))
  {
  }

  /** A prompt with a blocked word is blocked whatever the classifier
      would say; the check is case-sensitive, so "NSFW" alone is left to
      the classifier. */
  lemma BlocklistFirst(prompt: string, c1: string -> Result<Json>, c2: string -> Result<Json>)
    ensures HasBlockedWord(prompt) ==> Blocked(prompt, c1) == Ok(true) == Blocked(prompt, c2)
    ensures Blocked("NSFW", c1) == match c1("NSFW") case Err(e) => Err(e) case Ok(d) => Verdict(d)
  {
    forall k | 0 <= k < |BLOCKED_WORDS|
      ensures !Contains("NSFW", BLOCKED_WORDS[k])
    {
      var w := BLOCKED_WORDS[k];
      forall i | 0 <= i <= |"NSFW"| - |w|
        ensures !OccursAt("NSFW", w, i)
      {
        assert "NSFW"[i..i + |w|][0] == "NSFW"[i];
      }
    }
  }

  /** The loop of `_is_blocked_prompt` over the blocklist, then the
      classifier. */
  method IsBlockedPrompt(prompt: string, classify: string -> Result<Json>) returns (r: Result<bool>)
    ensures r == Blocked(prompt, classify)
  {
    for i := 0 to |BLOCKED_WORDS|
      invariant forall k :: 0 <= k < i ==> !Contains(prompt, BLOCKED_WORDS[k])
    {
      if Contains(prompt, BLOCKED_WORDS[i]) {
        return Ok(true);
      }
    }
    var reply := classify(prompt);
    if reply.Err? {
      return Err(reply.error);
    }
    return Verdict(reply.value);
  }

  /** `data[0]`: a list's first item, a string's first character; a dict
      has no key 0 (its keys are strings). */
  function First(v: Json): Result<Json>
  {
    match v
    case Array(items) => if items == [] then Err(IndexError) else Ok(items[0])
    case Str(s) => if s == "" then Err(IndexError) else Ok(Str([s[0]]))
    case Object(_) => Err(KeyError)
    case _ => Err(TypeError)
  }

  /** `data["images"][0]["url"]` */
  function ImageUrl(data: Json): Result<Json>
  {
    match Index(data, "images")
    case Err(e) => Err(e)
    case Ok(images) =>
      match First(images)
      case Err(e) => Err(e)
      case Ok(item) => Index(item, "url")
  }

  /** A follow-up message: text, or text with the image fetched from `url`. */
  datatype Followup = Text(content: string) | WithImage(content: string, url: Json)

  /** The error reply: the excerpt in a JSON code block. */
  function ErrorReply(excerpt: string): string
  {
    ":x: Error generating image.\n```json\n" + excerpt + "```"
  }

  /** The reply to the service's answer `jsonData`: the image under the
      prompt; the first 1700 characters of the answer when a key is
      missing; any other error (undecodable JSON, an empty image list, a
      non-dict) escapes the handler. */
  function Delivery(query: string, jsonData: string, decode: string -> Option<Json>): (seq<Followup>, Option<Error>)
  {
    match decode(jsonData)
    case None => ([], Some(ValueError))
    case Some(data) =>
      match ImageUrl(data)
      case Ok(url) => ([WithImage("`PROMPT:` **" + query + "**", url)], None)
      case Err(KeyError) => ([Text(ErrorReply(PyTake(jsonData, JSON_EXCERPT)))], None)
      case Err(e) => ([], Some(e))
  }

  /** An error reply quotes a prefix of the answer of at most 1700
      characters. */
  lemma ErrorReplyExcerpt(query: string, jsonData: string, decode: string -> Option<Json>)
    ensures var sent := Delivery(query, jsonData, decode).0;
            forall k :: 0 <= k < |sent| && sent[k].Text? ==>
              exists p :: |p| <= JSON_EXCERPT && StartsWith(jsonData, p) && sent[k].content == ErrorReply(p)
  {
    var sent := Delivery(query, jsonData, decode).0;
    var p := PyTake(jsonData, JSON_EXCERPT);
    assert |p| <= JSON_EXCERPT && StartsWith(jsonData, p);
    assert sent == [] || sent == [Text(ErrorReply(p))] || (|sent| == 1 && sent[0].WithImage?);
    forall k | 0 <= k < |sent| && sent[k].Text?
      ensures exists p :: |p| <= JSON_EXCERPT && StartsWith(jsonData, p) && sent[k].content == ErrorReply(p)
    {
      assert sent[k].content == ErrorReply(p);
    }
  }

  /** `ImageGenCommand`: the command's limiter and the follow-ups sent. */
  class ImageGenCommand {
    const limiter: RateLimiter
    var sent: seq<Followup>

    constructor ()
      ensures fresh(limiter) && limiter.limits == IMAGE_GEN_LIMITS && limiter.userLogs == map[] && sent == []
    {
      limiter := new RateLimiter(IMAGE_GEN_LIMITS);
      sent := [];
    }

    /** `generate_image`: moderation first, then the rate check, and only a
        request that passed both is registered and sent to the service.
        `raised` is the exception that escapes, if any. */
    method GenerateImage(userId: int, query: string, now: int, classify: string -> Result<Json>,
                         requestImage: string -> string, decode: string -> Option<Json>)
      returns (raised: Option<Error>)
      modifies this, limiter
      ensures var b := Blocked(query, classify);
              if b.Err? then
                raised == Some(b.error) && sent == old(sent) && limiter.userLogs == old(limiter.userLogs)
              else if b.value then
                raised == None && sent == old(sent) + [Text(FLAGGED_REPLY)] && limiter.userLogs == old(limiter.userLogs)
              else if Limited(old(limiter.userLogs), userId, now, limiter.limits) then
                raised == None && sent == old(sent) + [Text(RATE_LIMITED_REPLY)] && limiter.userLogs == old(limiter.userLogs)
              else
                var (replies, err) := Delivery(query, requestImage(query), decode);
                limiter.userLogs == Registered(old(limiter.userLogs), userId, now, limiter.limits)
                && sent == old(sent) + replies && raised == err
    {
      var blocked := IsBlockedPrompt(query, classify);
      if blocked.Err? {
        return Some(blocked.error);
      }
      if blocked.value {
        sent := sent + [Text(FLAGGED_REPLY)];
        return None;
      }
      var limited := limiter.IsRateLimited(userId, now);
      if limited {
        sent := sent + [Text(RATE_LIMITED_REPLY)];
        return None;
      }
      limiter.RegisterRequest(userId, now);
      var jsonData := requestImage(query);
      var data := decode(jsonData);
      if data.None? {
        return Some(ValueError);
      }
      var url := ImageUrl(data.value);
      if url.Ok? {
        sent := sent + [WithImage("`PROMPT:` **" + query + "**", url.value)];
        return None;
      }
      if url.error == KeyError {
        sent := sent + [Text(ErrorReply(PyTake(jsonData, JSON_EXCERPT)))];
        return None;
      }
      return Some(url.error);
    }
  }

  /** As written, `generate_image` checks the limiter before registering the
      request, so the check made by a request that follows `k` admitted ones
      at the same instant passes exactly when `k <= 3`: four requests pass
      and the fifth is refused, although the reply calls the limit 3 / min. */
  lemma FourPassAtOneInstant(userId: int, now: int, k: nat)
    ensures !Limited(RegisteredTimes(map[], userId, now, IMAGE_GEN_LIMITS, k), userId, now, IMAGE_GEN_LIMITS)
            <==> k <= 3
  {
    SameInstantLimited(userId, now, IMAGE_GEN_LIMITS[0], k);
  }

  /** The check as evidently intended: the request being made counts, so a
      request is refused when registering it would exceed a window. */
  predicate WouldExceed(userLogs: map<int, seq<int>>, userId: int, now: int, limits: seq<RateLimit>)
  {
    Limited(Registered(userLogs, userId, now, limits), userId, now, limits)
  }

  /** With the corrected check, a request that follows `k` admitted ones at
      the same instant passes exactly when `k < 3`: three requests pass and
      the fourth is refused. */
  lemma ThreePassAtOneInstant(userId: int, now: int, k: nat)
    ensures !WouldExceed(RegisteredTimes(map[], userId, now, IMAGE_GEN_LIMITS, k), userId, now, IMAGE_GEN_LIMITS)
            <==> k < 3
  {
    assert Registered(RegisteredTimes(map[], userId, now, IMAGE_GEN_LIMITS, k), userId, now, IMAGE_GEN_LIMITS)
        == RegisteredTimes(map[], userId, now, IMAGE_GEN_LIMITS, k + 1);
    SameInstantLimited(userId, now, IMAGE_GEN_LIMITS[0], k + 1);
  }
}
