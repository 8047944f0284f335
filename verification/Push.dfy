/** The string functions of Go's standard library that header and body handling rest on. */
module Text {
  import opened Wrappers

  /** unicode.IsSpace, for the characters of Latin-1. */
  predicate IsSpace(c: char) {
    c == ' ' || '\t' <= c <= '\r' || c == '\U{85}' || c == '\U{A0}'
  }

  function TrimLeft(s: string): string {
    if s != [] && IsSpace(s[0]) then TrimLeft(s[1..]) else s
  }

  function TrimRight(s: string): string {
    if s != [] && IsSpace(s[|s| - 1]) then TrimRight(s[..|s| - 1]) else s
  }

  /** strings.TrimSpace */
  function TrimSpace(s: string): string {
    TrimRight(TrimLeft(s))
  }

  /** One letter case: ASCII, and the two other characters that fold onto an ASCII letter. */
  function Fold(c: char): char {
    if 'A' <= c <= 'Z' then (c as int + 32) as char
    else if c == '\U{17F}' then 's'
    else if c == '\U{212A}' then 'k'
    else c
  }

  function FoldAll(s: string): string {
    seq(|s|, i requires 0 <= i < |s| => Fold(s[i]))
  }

  /** The index of the first c in s, or |s|. */
  function IndexOf(s: string, c: char): (i: nat)
    ensures i <= |s| && c !in s[..i] && (i < |s| ==> s[i] == c)
  {
    if s == [] || s[0] == c then 0
    else
      var i := 1 + IndexOf(s[1..], c);
      assert s[..i] == [s[0]] + s[1..][..i - 1];
      i
  }

  /** strings.Cut: what precedes the first c, and what follows it. */
  function Cut(s: string, c: char): (string, Option<string>) {
    var i := IndexOf(s, c);
    (s[..i], if i < |s| then Some(s[i + 1..]) else None)
  }

  // ---------------------------------------------------------------- what they come to

  predicate Blank(w: string) {
    forall i | 0 <= i < |w| :: IsSpace(w[i])
  }

  /** No space at either end. */
  predicate Trimmed(m: string) {
    m == "" || (!IsSpace(m[0]) && !IsSpace(m[|m| - 1]))
  }

  lemma {:induction false} TrimLeftDrops(pre: string, rest: string)
    requires Blank(pre) && (rest == "" || !IsSpace(rest[0]))
    ensures TrimLeft(pre + rest) == rest
    decreases |pre|
  {
    if pre == "" {
      assert pre + rest == rest;
    } else {
      assert (pre + rest)[1..] == pre[1..] + rest && (pre + rest)[0] == pre[0];
      TrimLeftDrops(pre[1..], rest);
    }
  }

  lemma {:induction false} TrimRightDrops(rest: string, post: string)
    requires Blank(post) && (rest == "" || !IsSpace(rest[|rest| - 1]))
    ensures TrimRight(rest + post) == rest
    decreases |post|
  {
    if post == "" {
      assert rest + post == rest;
    } else {
      var init := post[..|post| - 1];
      assert (rest + post)[..|rest + post| - 1] == rest + init && (rest + post)[|rest + post| - 1] == post[|post| - 1];
      TrimRightDrops(rest, init);
    }
  }

  /** Space around a text that has none at its ends is what TrimSpace drops; every text is of that
      shape, so this is all it does. */
  lemma TrimSpaceDrops(pre: string, m: string, post: string)
    requires Blank(pre) && Trimmed(m) && Blank(post)
    ensures TrimSpace(pre + m + post) == m
  {
    if m == "" {
      TrimLeftDrops(pre + post, "");
      assert pre + m + post == (pre + post) + "";
    } else {
      assert pre + m + post == pre + (m + post);
      TrimLeftDrops(pre, m + post);
      TrimRightDrops(m, post);
    }
  }

  lemma {:induction false} TrimLeftSplits(s: string) returns (pre: string)
    ensures Blank(pre) && s == pre + TrimLeft(s) && (TrimLeft(s) == "" || !IsSpace(TrimLeft(s)[0]))
    decreases |s|
  {
    if s != "" && IsSpace(s[0]) {
      var rest := TrimLeftSplits(s[1..]);
      pre := [s[0]] + rest;
      assert s == [s[0]] + s[1..];
    } else {
      pre := "";
    }
  }

  lemma {:induction false} TrimRightSplits(s: string) returns (post: string)
    ensures Blank(post) && s == TrimRight(s) + post
    ensures TrimRight(s) == "" || (!IsSpace(TrimRight(s)[|TrimRight(s)| - 1]) && TrimRight(s)[0] == s[0])
    decreases |s|
  {
    if s != "" && IsSpace(s[|s| - 1]) {
      var rest := TrimRightSplits(s[..|s| - 1]);
      post := rest + [s[|s| - 1]];
      assert s == s[..|s| - 1] + [s[|s| - 1]];
    } else {
      post := "";
    }
  }

  lemma TrimSpaceSplits(s: string) returns (pre: string, post: string)
    ensures Blank(pre) && Trimmed(TrimSpace(s)) && Blank(post) && s == pre + TrimSpace(s) + post
  {
    pre := TrimLeftSplits(s);
    post := TrimRightSplits(TrimLeft(s));
  }

  lemma {:induction false} IndexAfter(a: string, c: char, rest: string)
    requires c !in a && (rest == "" || rest[0] == c)
    ensures IndexOf(a + rest, c) == |a|
    decreases |a|
  {
    if a == "" {
      assert a + rest == rest;
    } else {
      assert (a + rest)[0] == a[0] && a[0] in a && (a + rest)[1..] == a[1..] + rest;
      IndexAfter(a[1..], c, rest);
    }
  }

  lemma CutAt(a: string, c: char, rest: string)
    requires c !in a
    ensures Cut(a + [c] + rest, c) == (a, Some(rest))
    ensures Cut(a, c) == (a, None)
  {
    var s := a + [c] + rest;
    assert s == a + ([c] + rest) && a + "" == a;
    IndexAfter(a, c, [c] + rest);
    IndexAfter(a, c, "");
    assert s[..|a|] == a && s[|a| + 1..] == rest;
  }

  /** x is the letter c in either case, or one of the two other characters that count as it. */
  predicate IsCaseOf(x: char, c: char) {
    x == c || ('a' <= c <= 'z' && x as int + 32 == c as int)
    || (c == 's' && x == '\U{17F}') || (c == 'k' && x == '\U{212A}')
  }

  predicate Spells(m: string, word: string) {
    |m| == |word| && forall i | 0 <= i < |m| :: IsCaseOf(m[i], word[i])
  }

  lemma FoldIsCase(x: char, c: char)
    requires !('A' <= c <= 'Z') && c != '\U{17F}' && c != '\U{212A}'
    ensures Fold(x) == c <==> IsCaseOf(x, c)
  {
  }

  /** Folding a text gives a lower-case word exactly when the text spells it, in whatever case. */
  lemma FoldsIffSpells(m: string, word: string)
    requires forall i | 0 <= i < |word| :: !('A' <= word[i] <= 'Z') && word[i] != '\U{17F}' && word[i] != '\U{212A}'
    ensures FoldAll(m) == word <==> Spells(m, word)
  {
    forall i | 0 <= i < |m| && i < |word|
      ensures FoldAll(m)[i] == word[i] <==> IsCaseOf(m[i], word[i])
    {
      FoldIsCase(m[i], word[i]);
    }
  }
}

/** receiver/push.go: one request to the push endpoint (RFC 8935, section 2). */
module PushHandler {
  import opened Wrappers
  import opened Text

  const PUSH_MEDIA_TYPE := "application/secevent+jwt"

  /** `broken` is a body that stops being readable before its end. */
  datatype Request = Request(httpMethod: string, contentType: string, body: string, broken: bool)

  datatype SinkAnswer = Accept | RefuseForGood | FailForNow

  /** The response status, and the payload the Sink was called with, if it was. */
  datatype Handled<P> = Handled(status: int, delivered: Option<P>)

  predicate HasPushMediaType(header: string) {
    FoldAll(TrimSpace(Cut(header, ';').0)) == FoldAll(PUSH_MEDIA_TYPE)
  }

  function Handle<P>(req: Request, maxBytes: int, verify: string -> Option<P>, sink: SinkAnswer): Handled<P> {
    if req.httpMethod != "POST" then Handled(405, None)
    else if !HasPushMediaType(req.contentType) then Handled(415, None)
    else if maxBytes > 0 && |req.body| > maxBytes then Handled(413, None)
    else if req.broken then Handled(400, None)
    else
      var jws := TrimSpace(req.body);
      if jws == "" then Handled(400, None)
      else
        match verify(jws)
        case None => Handled(400, None)
        case Some(payload) =>
          Handled(match sink case Accept => 202 case RefuseForGood => 400 case FailForNow => 503, Some(payload))
  }

  /** The header spells the media type, in any case, with any space around it and perhaps a semicolon
      and anything after that. */
  ghost predicate NamesPushMediaType(header: string) {
    exists pre: string, m: string, post: string, rest: string :: IsHeader(header, pre, m, post, rest)
  }

  predicate IsHeader(header: string, pre: string, m: string, post: string, rest: string) {
    && Blank(pre) && Spells(m, PUSH_MEDIA_TYPE) && Blank(post)
    && (header == pre + m + post || header == pre + m + post + [';'] + rest)
  }

  lemma MediaTypeChars()
    ensures PUSH_MEDIA_TYPE != "" && ';' !in PUSH_MEDIA_TYPE && FoldAll(PUSH_MEDIA_TYPE) == PUSH_MEDIA_TYPE
    ensures forall i | 0 <= i < |PUSH_MEDIA_TYPE| ::
              !('A' <= PUSH_MEDIA_TYPE[i] <= 'Z') && PUSH_MEDIA_TYPE[i] != '\U{17F}' && PUSH_MEDIA_TYPE[i] != '\U{212A}'
              && !IsSpace(PUSH_MEDIA_TYPE[i])
  {
  }

  lemma MediaTypeIff(header: string)
    ensures HasPushMediaType(header) <==> NamesPushMediaType(header)
  {
    hide FoldAll, TrimSpace, Spells, Cut;
    MediaTypeChars();
    var a := Cut(header, ';').0;
    FoldsIffSpells(TrimSpace(a), PUSH_MEDIA_TYPE);
    if HasPushMediaType(header) {
      var pre, post := TrimSpaceSplits(a);
      var rest := CutSplits(header, ';');
      assert IsHeader(header, pre, TrimSpace(a), post, rest);
    }
    if NamesPushMediaType(header) {
      var pre, m, post, rest :| IsHeader(header, pre, m, post, rest);
      SpelledIsPlain(m);
      NoSemicolon(pre, m, post);
      CutAt(pre + m + post, ';', rest);
      TrimSpaceDrops(pre, m, post);
      FoldsIffSpells(m, PUSH_MEDIA_TYPE);
    }
  }

  lemma CutSplits(s: string, c: char) returns (rest: string)
    ensures s == Cut(s, c).0 || s == Cut(s, c).0 + [c] + rest
  {
    var i := IndexOf(s, c);
    rest := if i < |s| then s[i + 1..] else "";
  }

  lemma SpelledIsPlain(m: string)
    requires Spells(m, PUSH_MEDIA_TYPE)
    ensures Trimmed(m) && ';' !in m
  {
    MediaTypeChars();
    forall i | 0 <= i < |m|
      ensures m[i] != ';' && !IsSpace(m[i])
    {
      assert IsCaseOf(m[i], PUSH_MEDIA_TYPE[i]) && PUSH_MEDIA_TYPE[i] in PUSH_MEDIA_TYPE;
    }
  }

  lemma NoSemicolon(pre: string, m: string, post: string)
    requires Blank(pre) && ';' !in m && Blank(post)
    ensures ';' !in pre + m + post
  {
  }

  /** Which answer a request gets, and when the Sink is called: for a POST of the media type whose body
      is within the limit, is read to its end, is not blank and verifies, and for no other. */
  lemma AnswersMean<P>(req: Request, maxBytes: int, verify: string -> Option<P>, sink: SinkAnswer)
    ensures var h := Handle(req, maxBytes, verify, sink);
      var refusedEarly := req.httpMethod != "POST" || !NamesPushMediaType(req.contentType);
      var tooLong := maxBytes > 0 && |req.body| > maxBytes;
      && (h.delivered.Some? <==>
            && !refusedEarly && !tooLong && !req.broken
            && TrimSpace(req.body) != "" && verify(TrimSpace(req.body)).Some?)
      && (h.delivered.Some? ==> h.delivered == verify(TrimSpace(req.body)))
      && (h.delivered.None? ==>
            h.status == if req.httpMethod != "POST" then 405
                        else if !NamesPushMediaType(req.contentType) then 415
                        else if tooLong then 413 else 400)
      && (h.delivered.Some? && sink.Accept? ==> h.status == 202)
      && (h.delivered.Some? && sink.RefuseForGood? ==> h.status == 400)
      && (h.delivered.Some? && sink.FailForNow? ==> h.status == 503)
  {
    hide NamesPushMediaType, HasPushMediaType, TrimSpace;
    MediaTypeIff(req.contentType);
  }

  /** 202 means that the Sink took the verified body, and nothing else does. */
  lemma AcceptedIff<P>(req: Request, maxBytes: int, verify: string -> Option<P>, sink: SinkAnswer)
    ensures var h := Handle(req, maxBytes, verify, sink);
            && (h.status == 202 <==> h.delivered.Some? && sink.Accept?)
            && (h.status == 503 <==> h.delivered.Some? && sink.FailForNow?)
            && (h.delivered.Some? ==> h.delivered == verify(TrimSpace(req.body)))
            && (h.status == 202 || h.status == 503 || 400 <= h.status < 500)
  {
  }
}

/** transmitter/pushdriver.go: the retry loop around one POST. */
module PushDelivery {
  import opened Wrappers
  import opened Int64
  import opened Text
  import Backoff

  const DEFAULT_MAX_RETRIES := 5

  datatype Setting = MaxRetries(n: int) | Bounds(initial: int64, maximum: int64)

  datatype Config = Config(maxRetries: int, initial: int64, maximum: int64, deadLetter: bool) {
    ghost predicate Valid() {
      maxRetries >= 0 && 0 < initial <= maximum
    }
  }

  /** A Retry-After header, after strconv.Atoi and http.ParseTime have had their say. */
  datatype RetryHeader = Absent | Seconds(n: int64) | Date(fromNow: int64) | Garbage

  function ParseRetryAfter(h: RetryHeader): int64 {
    match h
    case Absent => 0
    case Seconds(n) => if n <= 0 then 0 else Wrap(n * SECOND)
    case Date(fromNow) => if fromNow <= 0 then 0 else fromNow
    case Garbage => 0
  }

  datatype Failure = NoEndpoint | Unsigned | Context | BadRequest | Transport | Status(code: int)

  /** What the POST of one attempt comes back with. */
  datatype PostResult = Unbuildable | Broken(contextDone: bool) | Response(status: int, retryAfter: RetryHeader)

  /** The surroundings of one attempt: whether the context is done before it, what its POST comes
      back with, the jitter drawn for the sleep after it, and whether that sleep is cut short. */
  datatype Attempt = Attempt(doneBefore: bool, post: PostResult, factor: real, overflow: int64, cut: bool)

  datatype Tried = Delivered | Permanent(why: Failure) | Transient(why: Failure, retryAfter: int64)

  /** PushDriver.attempt: what a POST result means. */
  function Classify(p: PostResult): Tried {
    match p
    case Unbuildable => Permanent(BadRequest)
    case Broken(contextDone) => Transient(if contextDone then Context else Transport, 0)
    case Response(status, retryAfter) =>
      if 200 <= status < 300 then Delivered
      else if status == 408 || status == 429 || status >= 500 then
        Transient(Status(status), ParseRetryAfter(retryAfter))
      else Permanent(Status(status))
  }

  /** The endpoint gave no answer, or one that asks to be tried again. */
  predicate Retriable(p: PostResult) {
    p.Broken? || (p.Response? && (p.status == 408 || p.status == 429 || p.status >= 500))
  }

  /** Which answers end a call and which are retried, and the pause an answer asks for. */
  lemma PostsMean(p: PostResult)
    ensures Classify(p).Delivered? <==> p.Response? && 200 <= p.status < 300
    ensures Classify(p).Transient? <==> Retriable(p)
    ensures p.Response? && !Classify(p).Delivered? ==> Classify(p).why == Status(p.status)
    ensures p.Broken? ==> Classify(p) == Transient(if p.contextDone then Context else Transport, 0)
    ensures p.Unbuildable? ==> Classify(p) == Permanent(BadRequest)
    ensures Retriable(p) && p.Response? && p.retryAfter.Seconds? && 0 < p.retryAfter.n * SECOND <= MAX ==>
              Classify(p).retryAfter == p.retryAfter.n * SECOND
    ensures Retriable(p) && p.Response? && p.retryAfter.Date? && p.retryAfter.fromNow > 0 ==>
              Classify(p).retryAfter == p.retryAfter.fromNow
    ensures Retriable(p) && (p.Broken? || (if p.retryAfter.Seconds? then p.retryAfter.n <= 0
                                           else !p.retryAfter.Date? || p.retryAfter.fromNow <= 0)) ==>
              Classify(p).retryAfter == 0
  {
  }

  function ApplyJitter(d: int64, factor: real, overflow: int64): int64 {
    if d <= 0 then d else Backoff.ToDuration(d as real * factor, overflow)
  }

  function CapDuration(d: int64, maximum: int64): (r: int64)
    ensures maximum >= 0 ==> 0 <= r <= maximum
  {
    if d < 0 then 0 else if d > maximum then maximum else d
  }

  /** What a call of Deliver does: how many attempts, each a POST unless its request cannot be built,
      which sleeps, which dead-letter callbacks. */
  datatype Report = Report(result: Option<Failure>, attempts: nat, sleeps: seq<int64>, deadLetters: seq<Failure>)

  /** The doubling at the end of a turn, wrap-around included. */
  function NextBackoff(backoff: int64, maximum: int64): int64 {
    var doubled := Wrap(backoff * 2);
    if doubled > maximum then maximum else doubled
  }

  /** The backoff before the sleep that follows attempt k. */
  function BackoffAt(c: Config, k: nat): int64 {
    if k == 0 then c.initial else NextBackoff(BackoffAt(c, k - 1), c.maximum)
  }

  function SleepAfter(c: Config, k: nat, a: Attempt, retryAfter: int64): int64 {
    CapDuration(ApplyJitter(if retryAfter > 0 then retryAfter else BackoffAt(c, k), a.factor, a.overflow), c.maximum)
  }

  /** The pause an answer asks for, if it asks for one. */
  predicate AsksFor(p: PostResult, pause: int) {
    p.Response? && pause > 0 &&
    if p.retryAfter.Seconds? then pause == p.retryAfter.n * SECOND
    else p.retryAfter.Date? && pause == p.retryAfter.fromNow
  }

  /** A duration times a factor, rounded down. */
  function Scaled(d: int64, factor: real): int {
    (d as real * factor).Floor
  }

  /** A pause the answer asks for is slept as it is, times the random factor, rounded down and capped. */
  lemma AskedPauseIsSlept(c: Config, k: nat, a: Attempt, pause: int64)
    requires c.Valid() && Retriable(a.post) && a.factor >= 0.0 && AsksFor(a.post, pause)
    requires Scaled(pause, a.factor) <= MAX
    ensures SleepAfter(c, k, a, Classify(a.post).retryAfter) == Min(Scaled(pause, a.factor), c.maximum)
  {
    hide Classify, BackoffAt, ApplyJitter, CapDuration, Scaled, AsksFor;
    AskedIsHeard(a.post, pause);
    ScaledSleep(pause, a.factor, a.overflow, c.maximum);
  }

  /** When no pause is asked for, the backoff is slept in the same way. */
  lemma OtherwiseBackoffIsSlept(c: Config, k: nat, a: Attempt)
    requires c.Valid() && Retriable(a.post) && a.factor >= 0.0 && forall pause: int :: !AsksFor(a.post, pause)
    requires BackoffAt(c, k) > 0 && Scaled(BackoffAt(c, k), a.factor) <= MAX
    ensures SleepAfter(c, k, a, Classify(a.post).retryAfter) == Min(Scaled(BackoffAt(c, k), a.factor), c.maximum)
  {
    hide Classify, ApplyJitter, CapDuration, Scaled, AsksFor, NextBackoff;
    NothingAsked(a.post);
    ScaledSleep(BackoffAt(c, k), a.factor, a.overflow, c.maximum);
  }

  lemma AskedIsHeard(p: PostResult, pause: int64)
    requires Retriable(p) && AsksFor(p, pause)
    ensures pause > 0 && Classify(p).Transient? && Classify(p).retryAfter == pause
  {
    PostsMean(p);
  }

  lemma NothingAsked(p: PostResult)
    requires Retriable(p) && forall pause: int :: !AsksFor(p, pause)
    ensures Classify(p).retryAfter == 0
  {
    if p.Response? {
      assert !AsksFor(p, if p.retryAfter.Seconds? then p.retryAfter.n * SECOND
                         else if p.retryAfter.Date? then p.retryAfter.fromNow else 1);
    }
    PostsMean(p);
  }

  lemma ScaledSleep(d: int64, factor: real, overflow: int64, maximum: int64)
    requires d > 0 && factor >= 0.0 && maximum > 0 && Scaled(d, factor) <= MAX
    ensures CapDuration(ApplyJitter(d, factor, overflow), maximum) == Min(Scaled(d, factor), maximum)
  {
    Backoff.ProductIsNonNegative(d as real, factor);
  }

  function Callback(c: Config, why: Failure): seq<Failure> {
    if c.deadLetter then [why] else []
  }

  /** Deliver from attempt k on. */
  function From(c: Config, script: seq<Attempt>, k: nat): Report
    requires c.Valid() && k <= c.maxRetries && |script| == c.maxRetries + 1
    decreases |script| - k
  {
    var a := script[k];
    if a.doneBefore then Report(Some(Context), 0, [], [])
    else
      match Classify(a.post)
      case Delivered => Report(None, 1, [], [])
      case Permanent(why) => Report(Some(why), 1, [], Callback(c, why))
      case Transient(why, retryAfter) =>
        if k == c.maxRetries then Report(Some(why), 1, [], Callback(c, why))
        else
          var d := SleepAfter(c, k, a, retryAfter);
          if d > 0 && a.cut then Report(Some(Context), 1, [d], [])
          else
            After(1, [d], From(c, script, k + 1))
  }

  /** The report of a call that has made `attempts` attempts and the `sleeps` already. */
  function After(attempts: nat, sleeps: seq<int64>, rest: Report): Report {
    Report(rest.result, attempts + rest.attempts, sleeps + rest.sleeps, rest.deadLetters)
  }

  function DeliverReport(c: Config, endpoint: string, jws: Option<string>, script: seq<Attempt>): Report
    requires c.Valid() && |script| == c.maxRetries + 1
  {
    if endpoint == "" then Report(Some(NoEndpoint), 0, [], [])
    else if jws.None? then Report(Some(Unsigned), 0, [], [])
    else From(c, script, 0)
  }

  /** WithMaxRetries and WithBackoff. */
  function Configured(c: Config, o: Setting): (r: Config)
    requires c.Valid()
    ensures r.Valid() && r.deadLetter == c.deadLetter
  {
    match o
    case MaxRetries(n) => c.(maxRetries := if n < 0 then 0 else n)
    case Bounds(initial, maximum) =>
      var i := if initial > 0 then initial else c.initial;
      c.(initial := i, maximum := if maximum < i then i else maximum)
  }

  function AllConfigured(options: seq<Setting>, c: Config): (r: Config)
    requires c.Valid()
    ensures r.Valid() && r.deadLetter == c.deadLetter
  {
    if options == [] then c else Configured(AllConfigured(options[..|options| - 1], c), options[|options| - 1])
  }

  predicate SetsInitial(o: Setting) {
    o.Bounds? && o.initial > 0
  }

  /** i is the last option of a kind, or None when there is no such option. */
  ghost predicate IsLast(options: seq<Setting>, kind: Setting -> bool, i: Option<nat>) {
    match i
    case None => forall j | 0 <= j < |options| :: !kind(options[j])
    case Some(k) => k < |options| && kind(options[k]) && forall j | k < j < |options| :: !kind(options[j])
  }

  lemma LastOfInit(options: seq<Setting>, kind: Setting -> bool, i: Option<nat>)
    requires options != [] && IsLast(options, kind, i) && i != Some(|options| - 1)
    ensures !kind(options[|options| - 1]) && IsLast(options[..|options| - 1], kind, i)
  {
  }

  /** The last retry count given decides, a negative one as zero... */
  lemma {:induction false} RetriesMean(options: seq<Setting>, c: Config, i: Option<nat>)
    requires c.Valid() && IsLast(options, (o: Setting) => o.MaxRetries?, i)
    ensures AllConfigured(options, c).maxRetries ==
            match i case None => c.maxRetries case Some(k) => if options[k].n < 0 then 0 else options[k].n
  {
    if options != [] && i != Some(|options| - 1) {
      LastOfInit(options, (o: Setting) => o.MaxRetries?, i);
      RetriesMean(options[..|options| - 1], c, i);
    }
  }

  /** ...the last positive initial backoff decides, whatever comes after it... */
  lemma {:induction false} InitialMeans(options: seq<Setting>, c: Config, i: Option<nat>)
    requires c.Valid() && IsLast(options, SetsInitial, i)
    ensures AllConfigured(options, c).initial ==
            match i case None => c.initial case Some(k) => options[k].initial
  {
    if options != [] && i != Some(|options| - 1) {
      LastOfInit(options, SetsInitial, i);
      InitialMeans(options[..|options| - 1], c, i);
    }
  }

  /** ...and the last maximum given decides, raised to the initial backoff where it is below that. */
  lemma {:induction false} MaximumMeans(options: seq<Setting>, c: Config, i: Option<nat>)
    requires c.Valid() && IsLast(options, (o: Setting) => o.Bounds?, i)
    ensures var r := AllConfigured(options, c);
      match i
      case None => r.maximum == c.maximum && r.initial == c.initial
      case Some(k) => r.maximum == if options[k].maximum >= r.initial then options[k].maximum else r.initial
  {
    if options != [] && i != Some(|options| - 1) {
      LastOfInit(options, (o: Setting) => o.Bounds?, i);
      MaximumMeans(options[..|options| - 1], c, i);
    }
  }

  lemma FromTheStart(c: Config, script: seq<Attempt>)
    requires c.Valid() && |script| == c.maxRetries + 1
    ensures After(0, [], From(c, script, 0)) == From(c, script, 0)
  {
    hide From;
    assert [] + From(c, script, 0).sleeps == From(c, script, 0).sleeps;
  }

  /** What one more turn adds to a call that has made k attempts. */
  lemma OneTurn(c: Config, script: seq<Attempt>, k: nat, sleeps: seq<int64>)
    requires c.Valid() && k <= c.maxRetries && |script| == c.maxRetries + 1
    ensures var a, now := script[k], After(k, sleeps, From(c, script, k));
      if a.doneBefore then now == Report(Some(Context), k, sleeps, [])
      else
        match Classify(a.post)
        case Delivered => now == Report(None, k + 1, sleeps, [])
        case Permanent(why) => now == Report(Some(why), k + 1, sleeps, Callback(c, why))
        case Transient(why, retryAfter) =>
          if k == c.maxRetries then now == Report(Some(why), k + 1, sleeps, Callback(c, why))
          else
            var d := SleepAfter(c, k, a, retryAfter);
            if d > 0 && a.cut then now == Report(Some(Context), k + 1, sleeps + [d], [])
            else now == After(k + 1, sleeps + [d], From(c, script, k + 1))
  {
    hide Classify, SleepAfter;
    assert sleeps + [] == sleeps;
    if k < c.maxRetries && !script[k].doneBefore && Classify(script[k].post).Transient? {
      var d := SleepAfter(c, k, script[k], Classify(script[k].post).retryAfter);
      var rest := From(c, script, k + 1).sleeps;
      assert sleeps + ([d] + rest) == (sleeps + [d]) + rest;
    }
  }

  class PushDriver {
    var maxRetries: int
    var initialBackoff: int64
    var maxBackoff: int64
    const onDeadLetter: bool

    function Settings(): Config
      reads this
    {
      Config(maxRetries, initialBackoff, maxBackoff, onDeadLetter)
    }

    /** NewPushDriver: the defaults, then the options in order. Any options leave a usable driver. */
    constructor (options: seq<Setting>, onDeadLetter: bool)
      ensures Settings().Valid() && this.onDeadLetter == onDeadLetter
      ensures Settings() == AllConfigured(options, Config(DEFAULT_MAX_RETRIES, SECOND, 60 * SECOND, onDeadLetter))
    {
      maxRetries := DEFAULT_MAX_RETRIES;
      initialBackoff := SECOND;
      maxBackoff := 60 * SECOND;
      this.onDeadLetter := onDeadLetter;
      new;
      for i := 0 to |options|
        invariant Settings().Valid() && this.onDeadLetter == onDeadLetter
        invariant Settings() ==
                  AllConfigured(options[..i], Config(DEFAULT_MAX_RETRIES, SECOND, 60 * SECOND, onDeadLetter))
      {
        assert options[..i + 1][..i] == options[..i];
        Configure(options[i]);
      }
      assert options[..|options|] == options;
    }

    method Configure(o: Setting)
      requires Settings().Valid()
      modifies this
      ensures Settings().Valid() && Settings() == Configured(old(Settings()), o)
    {
      match o {
        case MaxRetries(n) =>
          maxRetries := if n < 0 then 0 else n;
        case Bounds(initial, maximum) =>
          if initial > 0 {
            initialBackoff := initial;
          }
          var m := maximum;
          if m < initialBackoff {
            m := initialBackoff;
          }
          maxBackoff := m;
      }
    }

    method Deliver(endpoint: string, jws: Option<string>, script: seq<Attempt>) returns (r: Report)
      requires Settings().Valid() && |script| == maxRetries + 1
      ensures r == DeliverReport(Settings(), endpoint, jws, script)
    {
      hide ApplyJitter, CapDuration, Classify, Wrap, From, After;
      FromTheStart(Settings(), script);
      if endpoint == "" {
        return Report(Some(NoEndpoint), 0, [], []);
      }
      if jws.None? {
        return Report(Some(Unsigned), 0, [], []);
      }
      ghost var c := Settings();
      var backoff := initialBackoff;
      var attempt := 0;
      var sleeps: seq<int64> := [];
      var lastErr;
      while true
        invariant 0 <= attempt <= maxRetries && backoff == BackoffAt(c, attempt)
        invariant From(c, script, 0) == After(attempt, sleeps, From(c, script, attempt))
        decreases maxRetries - attempt
      {
        OneTurn(c, script, attempt, sleeps);
        var a := script[attempt];
        if a.doneBefore {
          return Report(Some(Context), attempt, sleeps, []);
        }
        var tried := Classify(a.post);
        if tried.Delivered? {
          return Report(None, attempt + 1, sleeps, []);
        }
        if tried.Permanent? {
          return Report(Some(tried.why), attempt + 1, sleeps, if onDeadLetter then [tried.why] else []);
        }
        lastErr := tried.why;
        if attempt == maxRetries {
          break;
        }
        var sleepFor := backoff;
        if tried.retryAfter > 0 {
          sleepFor := tried.retryAfter;
        }
        sleepFor := CapDuration(ApplyJitter(sleepFor, a.factor, a.overflow), maxBackoff);
        sleeps := sleeps + [sleepFor];
        if sleepFor > 0 && a.cut {
          return Report(Some(Context), attempt + 1, sleeps, []);
        }
        backoff := Wrap(backoff * 2);
        if backoff > maxBackoff {
          backoff := maxBackoff;
        }
        attempt := attempt + 1;
      }
      r := Report(Some(lastErr), attempt + 1, sleeps, if onDeadLetter then [lastErr] else []);
    }
  }

  // ---------------------------------------------------------------- dead letters

  /** The callback fires at most once, with the error Deliver returns; never on success, without an
      endpoint or a signature; always on any other failure, except that a done context is reported
      to it exactly when the context ended during the last POST the budget allows. */
  lemma DeadLetterAccounting(c: Config, endpoint: string, jws: Option<string>, script: seq<Attempt>)
    requires c.Valid() && c.deadLetter && |script| == c.maxRetries + 1
    ensures var r := DeliverReport(c, endpoint, jws, script);
            && (r.deadLetters == [] || (r.result.Some? && r.deadLetters == [r.result.value]))
            && (r.result == None || r.result == Some(NoEndpoint) || r.result == Some(Unsigned) ==> r.deadLetters == [])
            && (r.result.Some? && r.result.value !in {NoEndpoint, Unsigned, Context} ==>
                  r.deadLetters == [r.result.value])
            && (r.result == Some(Context) ==>
                  (r.deadLetters != [] <==>
                     r.attempts == c.maxRetries + 1 && script[c.maxRetries].post == Broken(true)))
            && r.attempts <= c.maxRetries + 1
  {
    if endpoint != "" && jws.Some? {
      DeadLettersFrom(c, script, 0);
    }
  }

  /** After attempt k the loop comes round again: its POST failed transiently, and the sleep that
      follows was not cut short. */
  predicate GoesOn(c: Config, script: seq<Attempt>, k: nat)
    requires c.Valid() && k <= c.maxRetries && |script| == c.maxRetries + 1
  {
    var a := script[k];
    && !a.doneBefore && Classify(a.post).Transient?
    && !(SleepAfter(c, k, a, Classify(a.post).retryAfter) > 0 && a.cut)
  }

  /** The context ends during the last POST the budget allows, and not before. */
  predicate EndsInLastPost(c: Config, script: seq<Attempt>, k: nat)
    requires c.Valid() && k <= c.maxRetries && |script| == c.maxRetries + 1
  {
    && (forall i | k <= i < c.maxRetries :: GoesOn(c, script, i))
    && !script[c.maxRetries].doneBefore && script[c.maxRetries].post == Broken(true)
  }

  /** In terms of the answers: the loop comes round again exactly when the context was alive, the answer
      can be retried, and the sleep was not cut short. */
  lemma GoesOnIff(c: Config, script: seq<Attempt>, k: nat)
    requires c.Valid() && k <= c.maxRetries && |script| == c.maxRetries + 1
    ensures GoesOn(c, script, k) <==>
            var a := script[k];
            !a.doneBefore && Retriable(a.post) && !(SleepAfter(c, k, a, Classify(a.post).retryAfter) > 0 && a.cut)
  {
    PostsMean(script[k].post);
    hide Classify, SleepAfter;
  }

  /** Which attempts are made: attempt i, within the budget, exactly when every earlier one went on to
      the next and the context is still alive. */
  lemma {:induction false} AttemptsAreMadeIff(c: Config, script: seq<Attempt>, k: nat, i: nat)
    requires c.Valid() && k <= i <= c.maxRetries && |script| == c.maxRetries + 1
    ensures i < k + From(c, script, k).attempts <==>
            (forall j | k <= j < i :: GoesOn(c, script, j)) && !script[i].doneBefore
    decreases |script| - k
  {
    hide SleepAfter, Callback;
    if k < i {
      AttemptsAreMadeIff(c, script, k + 1, i);
      assert (forall j | k <= j < i :: GoesOn(c, script, j)) <==>
             GoesOn(c, script, k) && forall j | k + 1 <= j < i :: GoesOn(c, script, j);
    }
  }

  /** How a call ends, by its last answer: nil after a 2xx; the answer itself when it cannot be retried
      or the budget is used up; the context's error when another attempt was due. */
  lemma {:induction false} ResultIsTheLastAnswer(c: Config, script: seq<Attempt>, k: nat)
    requires c.Valid() && k <= c.maxRetries && |script| == c.maxRetries + 1
    ensures var r := From(c, script, k); var last: int := k + r.attempts - 1;
      && last <= c.maxRetries
      && (r.attempts == 0 ==> r.result == Some(Context))
      && (r.attempts > 0 ==>
            var p := script[last].post;
            && (p.Response? && 200 <= p.status < 300 ==> r.result == None)
            && (p.Unbuildable? ==> r.result == Some(BadRequest))
            && (p.Response? && !(200 <= p.status < 300) && (!Retriable(p) || last == c.maxRetries) ==>
                  r.result == Some(Status(p.status)))
            && (p.Broken? && last == c.maxRetries ==> r.result == Some(if p.contextDone then Context else Transport))
            && (Retriable(p) && last < c.maxRetries ==> r.result == Some(Context)))
    decreases |script| - k
  {
    PostsMean(script[k].post);
    hide Classify, SleepAfter, Callback, Retriable;
    if k < c.maxRetries {
      ResultIsTheLastAnswer(c, script, k + 1);
    }
  }

  /** "Never on cancellation" fails, for exactly these calls: there is an endpoint and a signature,
      every attempt but the last goes on to the next, and the context ends during the last POST. */
  lemma ContextIsDeadLetteredIff(c: Config, endpoint: string, jws: Option<string>, script: seq<Attempt>)
    requires c.Valid() && c.deadLetter && |script| == c.maxRetries + 1
    ensures var r := DeliverReport(c, endpoint, jws, script);
            r.result == Some(Context) && r.deadLetters != [] <==>
            endpoint != "" && jws.Some? && EndsInLastPost(c, script, 0)
  {
    hide From, EndsInLastPost;
    if endpoint != "" && jws.Some? {
      ContextIsDeadLetteredFrom(c, script, 0);
    }
  }

  lemma {:induction false} ContextIsDeadLetteredFrom(c: Config, script: seq<Attempt>, k: nat)
    requires c.Valid() && c.deadLetter && k <= c.maxRetries && |script| == c.maxRetries + 1
    ensures var r := From(c, script, k);
            r.result == Some(Context) && r.deadLetters != [] <==> EndsInLastPost(c, script, k)
    decreases |script| - k
  {
    hide SleepAfter;
    if k < c.maxRetries {
      ContextIsDeadLetteredFrom(c, script, k + 1);
      assert EndsInLastPost(c, script, k) <==> GoesOn(c, script, k) && EndsInLastPost(c, script, k + 1);
    }
  }

  lemma {:induction false} DeadLettersFrom(c: Config, script: seq<Attempt>, k: nat)
    requires c.Valid() && c.deadLetter && k <= c.maxRetries && |script| == c.maxRetries + 1
    ensures var r := From(c, script, k);
            && (r.deadLetters == [] || (r.result.Some? && r.deadLetters == [r.result.value]))
            && (r.result == None ==> r.deadLetters == [])
            && r.result != Some(NoEndpoint) && r.result != Some(Unsigned)
            && (r.result.Some? && r.result != Some(Context) ==> r.deadLetters != [])
            && (r.result == Some(Context) ==>
                  (r.deadLetters != [] <==> r.attempts == |script| - k && script[c.maxRetries].post == Broken(true)))
            && r.attempts <= |script| - k
    decreases |script| - k
  {
    if k < c.maxRetries {
      DeadLettersFrom(c, script, k + 1);
    }
  }

  /** The corner itself: the only POST of a call without retries is cut off by the context, and the
      callback gets the context's error. */
  lemma ContextErrorIsDeadLettered(initial: int64, maximum: int64, factor: real)
    requires 0 < initial <= maximum
    ensures DeliverReport(Config(0, initial, maximum, true), "https://receiver", Some("jws"),
                          [Attempt(false, Broken(true), factor, 0, false)])
            == Report(Some(Context), 1, [], [Context])
  {
  }

  /** Without a callback nothing is dead-lettered, and nothing else changes. */
  lemma {:induction false} CallbackOnlyObserves(c: Config, script: seq<Attempt>, k: nat)
    requires c.Valid() && k <= c.maxRetries && |script| == c.maxRetries + 1
    ensures From(c.(deadLetter := false), script, k) == From(c, script, k).(deadLetters := [])
    decreases |script| - k
  {
    BackoffIgnoresCallback(c, k);
    if k < c.maxRetries {
      CallbackOnlyObserves(c, script, k + 1);
    }
  }

  lemma {:induction false} BackoffIgnoresCallback(c: Config, k: nat)
    ensures BackoffAt(c.(deadLetter := false), k) == BackoffAt(c, k)
  {
    if k > 0 {
      BackoffIgnoresCallback(c, k - 1);
    }
  }

  // ---------------------------------------------------------------- sleeps

  function Sum(s: seq<int64>): int {
    if s == [] then 0 else s[0] + Sum(s[1..])
  }

  /** Whatever the options, the jitter and the Retry-After headers, wrapped or not: no sleep leaves
      [0, maximum], there is at most one per retry, and together they stay under the budget. */
  lemma SleepsAreBounded(options: seq<Setting>, endpoint: string, jws: Option<string>, script: seq<Attempt>)
    requires |script| == AllConfigured(options, Config(DEFAULT_MAX_RETRIES, SECOND, 60 * SECOND, true)).maxRetries + 1
    ensures var c := AllConfigured(options, Config(DEFAULT_MAX_RETRIES, SECOND, 60 * SECOND, true));
            var sleeps := DeliverReport(c, endpoint, jws, script).sleeps;
            && (forall i | 0 <= i < |sleeps| :: 0 <= sleeps[i] <= c.maximum)
            && |sleeps| <= c.maxRetries
            && 0 <= Sum(sleeps) <= c.maxRetries * c.maximum
  {
    var c := AllConfigured(options, Config(DEFAULT_MAX_RETRIES, SECOND, 60 * SECOND, true));
    if endpoint != "" && jws.Some? {
      SleepsFrom(c, script, 0);
      SumBound(From(c, script, 0).sleeps, c.maximum);
      Monotone(|From(c, script, 0).sleeps|, c.maxRetries, c.maximum);
    } else {
      Monotone(0, c.maxRetries, c.maximum);
    }
  }

  lemma Monotone(a: nat, b: nat, m: nat)
    requires a <= b
    ensures a * m <= b * m
  {
  }

  lemma {:induction false} SleepsFrom(c: Config, script: seq<Attempt>, k: nat)
    requires c.Valid() && k <= c.maxRetries && |script| == c.maxRetries + 1
    ensures var sleeps := From(c, script, k).sleeps;
            (forall i | 0 <= i < |sleeps| :: 0 <= sleeps[i] <= c.maximum) && |sleeps| <= c.maxRetries - k
    decreases |script| - k
  {
    if k < c.maxRetries {
      SleepsFrom(c, script, k + 1);
    }
  }

  lemma {:induction false} SumBound(s: seq<int64>, m: nat)
    requires forall i | 0 <= i < |s| :: 0 <= s[i] <= m
    ensures 0 <= Sum(s) <= |s| * m
  {
    if s != [] {
      SumBound(s[1..], m);
      assert |s| * m == |s[1..]| * m + m;
    }
  }

  /** The i-th sleep of a call is the one computed from the i-th backoff. */
  lemma {:induction false} SleepAt(c: Config, script: seq<Attempt>, k: nat, i: nat)
    requires c.Valid() && k <= c.maxRetries && |script| == c.maxRetries + 1
    requires i < |From(c, script, k).sleeps|
    ensures k + i < c.maxRetries && Classify(script[k + i].post).Transient?
    ensures From(c, script, k).sleeps[i] == SleepAfter(c, k + i, script[k + i], Classify(script[k + i].post).retryAfter)
    decreases |script| - k
  {
    if i > 0 {
      SleepAt(c, script, k + 1, i - 1);
    }
  }

  const TWO_62 := 0x4000_0000_0000_0000

  lemma {:induction false} BackoffBelow(c: Config, k: nat)
    requires c.Valid() && c.maximum < TWO_62
    ensures BackoffAt(c, k) == Min(c.initial * Pow2(k), c.maximum)
  {
    if k > 0 {
      BackoffBelow(c, k - 1);
      ScheduledDoubles(c.initial, c.maximum, k - 1);
    } else {
      assert Pow2(0) == 1;
    }
  }

  lemma Pow2Of62()
    ensures Pow2(62) == TWO_62
  {
    assert Pow2(10) == 1024;
    assert Pow2(20) == 0x10_0000;
    assert Pow2(31) == 0x8000_0000;
    assert Pow2(40) == 0x100_0000_0000;
    assert Pow2(51) == 0x8_0000_0000_0000;
  }

  /** The doubling has no overflow guard: the backoff follows min(initial * 2^k, maximum) for all k
      exactly when the maximum is below 2^62. From there on it turns negative, hence no sleep. */
  lemma BackoffIsExponentialIff(c: Config)
    requires c.Valid()
    ensures (forall k: nat :: BackoffAt(c, k) == Min(c.initial * Pow2(k), c.maximum)) <==> c.maximum < TWO_62
  {
    if c.maximum < TWO_62 {
      forall k: nat ensures BackoffAt(c, k) == Min(c.initial * Pow2(k), c.maximum) {
        BackoffBelow(c, k);
      }
    } else if BackoffAt(c, 62) == Min(c.initial * Pow2(62), c.maximum) {
      Pow2Of62();
      assert c.initial * Pow2(62) >= TWO_62;
      assert BackoffAt(c, 63) < 0;
      ScheduledDoubles(c.initial, c.maximum, 63);
    }
  }

  /** The corner itself: with the widest bounds the second backoff is -2^63 instead of the maximum, and
      the sleep after a failure without Retry-After is none at all. */
  lemma BackoffTurnsNegative(a: Attempt)
    requires a.factor == 1.0
    ensures var c := Config(1, TWO_62, MAX, false);
      && BackoffAt(c, 1) == -TWO_63 && Min(c.initial * Pow2(1), c.maximum) == MAX
      && SleepAfter(c, 1, a, 0) == 0
  {
    assert Pow2(1) == 2 * Pow2(0);
    var c := Config(1, TWO_62, MAX, false);
    assert BackoffAt(c, 0) == TWO_62;
    assert BackoffAt(c, 1) == NextBackoff(TWO_62, MAX);
  }
}

/** The driver and the handler with a lossy network between them. */
module PushComposition {
  import opened Wrappers
  import opened Int64
  import opened Text
  import H = PushHandler
  import opened PushDelivery

  datatype Link = RequestLost | ReplyLost | Through

  /** The network and the Sink during one attempt; the rest is as in the attempt of the driver. */
  datatype Hop = Hop(link: Link, sink: H.SinkAnswer, retryAfter: RetryHeader)

  /** One call of Deliver: what it posts, and the endpoint it posts to. */
  datatype Call<!P> = Call(jws: string, contentType: string, maxBytes: int, verify: string -> Option<P>)

  function Handled<P>(call: Call<P>, sink: H.SinkAnswer): H.Handled<P> {
    H.Handle(H.Request("POST", call.contentType, call.jws, false), call.maxBytes, call.verify, sink)
  }

  /** What the driver sees of an attempt, and the Sink call it causes. */
  function Exchange<P>(hop: Hop, call: Call<P>): (PostResult, Option<P>) {
    var h := Handled(call, hop.sink);
    match hop.link
    case RequestLost => (Broken(false), None)
    case ReplyLost => (Broken(false), h.delivered)
    case Through => (Response(h.status, hop.retryAfter), h.delivered)
  }

  /** The script's POST results come from the exchange, or from the context ending during it. */
  ghost predicate Plays<P>(script: seq<Attempt>, hops: seq<Hop>, call: Call<P>) {
    |hops| == |script| &&
    forall k | 0 <= k < |script| ::
      script[k].post == Exchange(hops[k], call).0 || (script[k].post == Broken(true) && !hops[k].link.Through?)
  }

  /** The payloads the Sink is called with in the first n attempts. */
  function SinkCalls<P>(hops: seq<Hop>, n: nat, call: Call<P>): seq<P>
    requires n <= |hops|
  {
    if n == 0 then []
    else SinkCalls(hops, n - 1, call) + match Exchange(hops[n - 1], call).1 case None => [] case Some(p) => [p]
  }

  /** A signer and verifier that fit, and a compact JWS the endpoint is willing to read. */
  ghost predicate Genuine<P>(payload: P, call: Call<P>) {
    && H.HasPushMediaType(call.contentType)
    && call.verify(call.jws) == Some(payload)
    && call.jws != "" && TrimSpace(call.jws) == call.jws
    && (call.maxBytes <= 0 || |call.jws| <= call.maxBytes)
  }

  /** The Content-Type the driver sets is one the handler takes. */
  lemma DriverMediaTypeFits()
    ensures H.HasPushMediaType(H.PUSH_MEDIA_TYPE)
  {
    var m := H.PUSH_MEDIA_TYPE;
    PlainHeader(m);
  }

  lemma PlainHeader(m: string)
    requires m != "" && !IsSpace(m[0]) && !IsSpace(m[|m| - 1]) && ';' !in m
    ensures TrimSpace(Cut(m, ';').0) == m
  {
    assert IndexOf(m, ';') == |m|;
    assert m[..|m|] == m;
  }

  lemma {:induction false} GenuineIsDelivered<P>(payload: P, call: Call<P>, sink: H.SinkAnswer)
    requires Genuine(payload, call)
    ensures Handled(call, sink) ==
            H.Handled(match sink case Accept => 202 case RefuseForGood => 400 case FailForNow => 503, Some(payload))
  {
  }

  /** How one call of Deliver ends, in terms of its last attempt. */
  lemma {:induction false} LastAttempt(c: Config, script: seq<Attempt>, k: nat)
    requires c.Valid() && k <= c.maxRetries && |script| == c.maxRetries + 1
    ensures var r := From(c, script, k);
            && k + r.attempts <= |script|
            && (r.result.None? <==> r.attempts > 0 && Classify(script[k + r.attempts - 1].post).Delivered?)
            && (forall i | k <= i < k + r.attempts - 1 :: Classify(script[i].post).Transient?)
    decreases |script| - k
  {
    if k < c.maxRetries {
      LastAttempt(c, script, k + 1);
    }
  }

  lemma {:induction false} CallsAreGenuine<P>(hops: seq<Hop>, n: nat, payload: P, call: Call<P>)
    requires n <= |hops| && Genuine(payload, call)
    ensures |SinkCalls(hops, n, call)| <= n
    ensures forall p <- SinkCalls(hops, n, call) :: p == payload
  {
    if n > 0 {
      CallsAreGenuine(hops, n - 1, payload, call);
      GenuineIsDelivered(payload, call, hops[n - 1].sink);
    }
  }

  /** The attempts whose answer the driver hears. */
  lemma {:induction false} Heard<P>(script: seq<Attempt>, hops: seq<Hop>, payload: P, call: Call<P>, i: nat)
    requires Genuine(payload, call) && Plays(script, hops, call) && i < |script| && script[i].post.Response?
    ensures hops[i].link.Through? && Exchange(hops[i], call).1 == Some(payload)
    ensures script[i].post.status ==
            match hops[i].sink case Accept => 202 case RefuseForGood => 400 case FailForNow => 503
  {
    GenuineIsDelivered(payload, call, hops[i].sink);
    assert script[i].post == Exchange(hops[i], call).0;
  }

  /** In every call over a lossy network the Sink is called with nothing but the payload, and at most
      once per attempt of the budget. */
  lemma {:induction false} SinkSeesOnlyThePayload<P>(
      c: Config, payload: P, call: Call<P>, script: seq<Attempt>, hops: seq<Hop>)
    requires c.Valid() && |script| == c.maxRetries + 1 && Genuine(payload, call) && Plays(script, hops, call)
    ensures var attempts := From(c, script, 0).attempts;
            && attempts <= 1 + c.maxRetries
            && |SinkCalls(hops, attempts, call)| <= attempts
            && forall p <- SinkCalls(hops, attempts, call) :: p == payload
  {
    LastAttempt(c, script, 0);
    CallsAreGenuine(hops, From(c, script, 0).attempts, payload, call);
  }

  /** Whatever is posted, signed well or not: Deliver returns nil exactly when the last attempt was
      answered and the Sink was handed, and took, what the verifier makes of the posted text. */
  lemma {:induction false} NilMeansAccepted<P>(c: Config, call: Call<P>, script: seq<Attempt>, hops: seq<Hop>)
    requires c.Valid() && |script| == c.maxRetries + 1 && Plays(script, hops, call)
    ensures var r := From(c, script, 0);
            && r.attempts <= |hops|
            && (r.result.None? <==>
                  && r.attempts > 0 && script[r.attempts - 1].post.Response? && hops[r.attempts - 1].sink.Accept?
                  && Exchange(hops[r.attempts - 1], call).1.Some?)
            && (r.result.None? ==> Exchange(hops[r.attempts - 1], call).1 == call.verify(TrimSpace(call.jws)))
  {
    LastAttempt(c, script, 0);
    var last: int := From(c, script, 0).attempts - 1;
    if last >= 0 && script[last].post.Response? {
      hide H.Handle;
      assert script[last].post == Exchange(hops[last], call).0;
      H.AcceptedIff(H.Request("POST", call.contentType, call.jws, false), call.maxBytes, call.verify, hops[last].sink);
    }
  }

  /** Deliver returns nil exactly when the Sink took the payload in the last attempt made and the
      driver heard so; in particular the Sink has then taken it at least once. */
  lemma {:induction false} SuccessMeansAccepted<P>(
      c: Config, payload: P, call: Call<P>, script: seq<Attempt>, hops: seq<Hop>)
    requires c.Valid() && |script| == c.maxRetries + 1 && Genuine(payload, call) && Plays(script, hops, call)
    ensures var r := From(c, script, 0);
            && r.attempts <= |hops|
            && (r.result.None? <==>
                  r.attempts > 0 && script[r.attempts - 1].post.Response? && hops[r.attempts - 1].sink.Accept?)
            && (r.result.None? ==> payload in SinkCalls(hops, r.attempts, call))
  {
    LastAttempt(c, script, 0);
    var last: int := From(c, script, 0).attempts - 1;
    if last >= 0 && script[last].post.Response? {
      Heard(script, hops, payload, call, last);
    }
  }

  /** A 503 the driver hears within the budget, which is what a Sink's transient failure comes to, is
      followed by another attempt, unless the context ends during the sleep or right after it. */
  lemma {:induction false} FailForNowIsRetried<P>(
      c: Config, payload: P, call: Call<P>, script: seq<Attempt>, hops: seq<Hop>, i: nat)
    requires c.Valid() && |script| == c.maxRetries + 1 && Genuine(payload, call) && Plays(script, hops, call)
    requires i < c.maxRetries && script[i].post.Response? && hops[i].sink.FailForNow?
    ensures var r := From(c, script, 0);
      && (i < r.attempts && !script[i].cut && !script[i + 1].doneBefore ==> i + 1 < r.attempts)
      && (r.attempts == i + 1 ==> r.result == Some(Context))
  {
    hide From, Exchange, Genuine, Plays;
    if i < From(c, script, 0).attempts {
      Heard(script, hops, payload, call, i);
      AttemptsAreMadeIff(c, script, 0, i);
      AttemptsAreMadeIff(c, script, 0, i + 1);
      GoesOnIff(c, script, i);
      ResultIsTheLastAnswer(c, script, 0);
    }
  }

  /** A 400 the driver hears is the last word: no attempt, hence no Sink call, follows it. */
  lemma {:induction false} BadRequestEndsIt<P>(
      c: Config, payload: P, call: Call<P>, script: seq<Attempt>, hops: seq<Hop>, i: nat)
    requires c.Valid() && |script| == c.maxRetries + 1 && Genuine(payload, call) && Plays(script, hops, call)
    requires i < |script| && script[i].post.Response? && hops[i].sink.RefuseForGood?
    ensures i < From(c, script, 0).attempts ==>
              From(c, script, 0).attempts == i + 1 && From(c, script, 0).result == Some(Status(400))
  {
    hide From, Exchange, Genuine, Plays;
    if i < From(c, script, 0).attempts {
      LastAttempt(c, script, 0);
      Heard(script, hops, payload, call, i);
      PermanentIsReturned(c, script, 0);
    }
  }

  lemma {:induction false} PermanentIsReturned(c: Config, script: seq<Attempt>, k: nat)
    requires c.Valid() && k <= c.maxRetries && |script| == c.maxRetries + 1
    ensures var r := From(c, script, k);
            && k + r.attempts <= |script|
            && (r.attempts > 0 && Classify(script[k + r.attempts - 1].post).Permanent? ==>
                  r.result == Some(Classify(script[k + r.attempts - 1].post).why))
    decreases |script| - k
  {
    hide Classify, SleepAfter, Callback;
    if k < c.maxRetries {
      PermanentIsReturned(c, script, k + 1);
    }
  }

  /** A body over the endpoint's limit never reaches the Sink and is never delivered. */
  lemma {:induction false} OversizeNeverArrives<P>(c: Config, call: Call<P>, script: seq<Attempt>, hops: seq<Hop>)
    requires c.Valid() && |script| == c.maxRetries + 1 && Plays(script, hops, call)
    requires 0 < call.maxBytes < |call.jws|
    ensures From(c, script, 0).result.Some?
    ensures From(c, script, 0).attempts <= |hops| && SinkCalls(hops, From(c, script, 0).attempts, call) == []
  {
    LastAttempt(c, script, 0);
    var last: int := From(c, script, 0).attempts - 1;
    NoCalls(hops, last + 1, call);
    if last >= 0 && script[last].post.Response? {
      assert script[last].post == Exchange(hops[last], call).0;
    }
  }

  lemma {:induction false} NoCalls<P>(hops: seq<Hop>, n: nat, call: Call<P>)
    requires n <= |hops| && 0 < call.maxBytes < |call.jws|
    ensures SinkCalls(hops, n, call) == []
  {
    if n > 0 {
      NoCalls(hops, n - 1, call);
    }
  }
}
