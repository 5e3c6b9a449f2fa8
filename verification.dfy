// VerificationService (ainewsback/services/verification.py): one-time codes
// kept in the TTL store under three key families, a per-phone rate limit, and
// an attempt counter that ends a code's life after too many wrong guesses.
//
// Each command is a pure step on the store's keyspace (SendStep, VerifyStep)
// and a method on the service that issues the same store commands one by one
// and is proved to arrive at that step's result.
module Verification {
  import opened Common
  import opened TtlStore
  import opened DingTalk
  import opened CodeGenerator

  // ---------------------------------------------------------------- keys

  /** _get_code_key: "verification:code:{scene}:{mobile}". */
  function CodeKey(mobile: string, scene: string): (k: string)
    ensures |k| == 19 + |scene| + |mobile| && k[..18] == "verification:code:"
  {
    "verification:code:" + scene + ":" + mobile
  }

  /** _get_rate_limit_key: "verification:rate_limit:{mobile}"; the scene plays no part. */
  function RateKey(mobile: string): (k: string)
    ensures |k| == 24 + |mobile| && k[..24] == "verification:rate_limit:" && k[24..] == mobile
  {
    "verification:rate_limit:" + mobile
  }

  /** _get_attempt_key: "verification:attempts:{scene}:{mobile}". */
  function AttemptKey(mobile: string, scene: string): (k: string)
    ensures |k| == 23 + |scene| + |mobile| && k[..22] == "verification:attempts:"
  {
    "verification:attempts:" + scene + ":" + mobile
  }

  /** The three key families never share a key: they differ right after "verification:". */
  lemma KeyFamiliesDisjoint(mobile1: string, scene1: string, mobile2: string, mobile3: string, scene3: string)
    ensures CodeKey(mobile1, scene1) != RateKey(mobile2)
    ensures CodeKey(mobile1, scene1) != AttemptKey(mobile3, scene3)
    ensures RateKey(mobile2) != AttemptKey(mobile3, scene3)
  {
    assert CodeKey(mobile1, scene1)[13] == 'c';
    assert RateKey(mobile2)[13] == 'r';
    assert AttemptKey(mobile3, scene3)[13] == 'a';
  }

  /**
   * Code keys are namespaced by (scene, mobile): two pairs share a code key,
   * or an attempt key, only when they are the same pair.
   */
  lemma ScopedKeysInjective(mobile1: string, scene1: string, mobile2: string, scene2: string)
    requires ':' !in scene1 && ':' !in scene2
    ensures CodeKey(mobile1, scene1) == CodeKey(mobile2, scene2) ==> mobile1 == mobile2 && scene1 == scene2
    ensures AttemptKey(mobile1, scene1) == AttemptKey(mobile2, scene2) ==> mobile1 == mobile2 && scene1 == scene2
  {
    var code := "verification:code:";
    var attempts := "verification:attempts:";
    if CodeKey(mobile1, scene1) == CodeKey(mobile2, scene2) {
      assert CodeKey(mobile1, scene1)[|code|..] == scene1 + ":" + mobile1;
      assert CodeKey(mobile2, scene2)[|code|..] == scene2 + ":" + mobile2;
      SplitAtFirst(scene1, mobile1, scene2, mobile2, ':');
    }
    if AttemptKey(mobile1, scene1) == AttemptKey(mobile2, scene2) {
      assert AttemptKey(mobile1, scene1)[|attempts|..] == scene1 + ":" + mobile1;
      assert AttemptKey(mobile2, scene2)[|attempts|..] == scene2 + ":" + mobile2;
      SplitAtFirst(scene1, mobile1, scene2, mobile2, ':');
    }
  }

  // ------------------------------------------------------------ settings

  /** CODE_LENGTH, CODE_EXPIRE_SECONDS, CODE_RATE_LIMIT and MAX_VERIFY_ATTEMPTS. */
  datatype Settings = Settings(codeLength: int, codeExpireSeconds: int, codeRateLimit: int, maxVerifyAttempts: int)

  /** SETEX refuses a TTL that is not positive, so both TTL settings must be positive. */
  predicate Usable(settings: Settings)
  {
    settings.codeExpireSeconds > 0 && settings.codeRateLimit > 0
  }

  // ----------------------------------------------------------- messages

  const CodeSent: string := "验证码发送成功"
  const CodeNotFound: string := "验证码不存在或已过期"
  const TooManyAttempts: string := "验证失败次数过多，请重新获取验证码"
  const Verified: string := "验证成功"

  const RateLimitedHead: string := "发送过于频繁，请 "
  const RateLimitedTail: string := " 秒后再试"
  const WrongCodeHead: string := "验证码错误，还有 "
  const WrongCodeTail: string := " 次尝试机会"

  function RateLimited(wait: int): string
  {
    RateLimitedHead + IntToString(wait) + RateLimitedTail
  }

  function WrongCode(remaining: int): string
  {
    WrongCodeHead + IntToString(remaining) + WrongCodeTail
  }

  // ---------------------------------------------------------- send_code

  /**
   * check_rate_limit: sending is allowed exactly when the phone's rate-limit
   * key has no positive TTL (it is missing, expired, or never expires);
   * otherwise that TTL is the wait.
   */
  function RateCheck(m: Entries, now: int, mobile: string): (r: (bool, Option<int>))
    ensures r.0 <==> !Live(m, now, RateKey(mobile)) || m[RateKey(mobile)].expireAt.None?
    ensures r.0 ==> r.1.None?
    ensures !r.0 ==> r.1.Some? && r.1.value > 0 && now + r.1.value == m[RateKey(mobile)].expireAt.value
  {
    var ttl := Remaining(m, now, RateKey(mobile));
    if ttl > 0 then (false, Some(ttl)) else (true, None)
  }

  /** The pipeline of send_code: the code, the rate-limit marker "1", and no attempt counter. */
  function Issue(m: Entries, now: int, mobile: string, scene: string, code: string, settings: Settings): (r: Entries)
    ensures AttemptKey(mobile, scene) !in r
    ensures RateKey(mobile) in r && r[RateKey(mobile)] == Entry("1", Some(now + settings.codeRateLimit))
    ensures CodeKey(mobile, scene) in r && r[CodeKey(mobile, scene)] == Entry(code, Some(now + settings.codeExpireSeconds))
    ensures forall k :: k != CodeKey(mobile, scene) && k != RateKey(mobile) && k != AttemptKey(mobile, scene) ==>
      (k in r <==> k in m) && (k in m ==> r[k] == m[k])
  {
    KeyFamiliesDisjoint(mobile, scene, mobile, mobile, scene);
    Put(Put(m, now, CodeKey(mobile, scene), code, settings.codeExpireSeconds),
        now, RateKey(mobile), "1", settings.codeRateLimit)
      - {AttemptKey(mobile, scene)}
  }

  /** What send_code leaves behind: the keyspace, its (success, message, code) and the notification posted. */
  datatype Sent = Sent(entries: Entries, ok: bool, message: string, code: Option<string>, notice: Option<Delivery>)

  /**
   * send_code with `code` as the generated code: refused while rate-limited;
   * otherwise the pipeline is written and then the notifier decides the answer.
   */
  function SendStep(m: Entries, now: int, mobile: string, scene: string, code: string, settings: Settings,
                    robot: Robot, sig: Signature, response: Response): (s: Sent)
    ensures s.code.Some? <==> s.ok
    ensures s.ok ==> s.code == Some(code) && s.message == CodeSent
    ensures s.notice.Some? <==> RateCheck(m, now, mobile).0
    ensures s.notice.Some? ==> (s.notice.value.payload.TextMessage? &&
      Mentions(s.notice.value.payload.content, mobile, code, scene, settings.codeExpireSeconds))
  {
    var (allowed, wait) := RateCheck(m, now, mobile);
    if !allowed then Sent(m, false, RateLimited(wait.value), None, None)
    else
      var d := SendVerificationCode(robot, settings.codeExpireSeconds, mobile, code, scene, sig, response);
      var issued := Issue(m, now, mobile, scene, code, settings);
      if d.ok then Sent(issued, true, CodeSent, Some(code), Some(d))
      else Sent(issued, false, d.message, None, Some(d))
  }

  /** A rate-limited send answers with the wait, posts nothing and changes no key. */
  lemma RateLimitedSendChangesNothing(m: Entries, now: int, mobile: string, scene: string, code: string,
                                      settings: Settings, robot: Robot, sig: Signature, response: Response)
    requires !RateCheck(m, now, mobile).0
    ensures SendStep(m, now, mobile, scene, code, settings, robot, sig, response)
         == Sent(m, false, RateLimited(Remaining(m, now, RateKey(mobile))), None, None)
  {
  }

  /**
   * The pipeline stores the code for CODE_EXPIRE_SECONDS and the marker for
   * CODE_RATE_LIMIT, clears the attempt counter and leaves every other key alone.
   */
  lemma IssueWrites(m: Entries, now: int, mobile: string, scene: string, code: string, settings: Settings)
    requires Usable(settings)
    ensures var issued := Issue(m, now, mobile, scene, code, settings);
      && Lookup(issued, now, CodeKey(mobile, scene)) == Some(code)
      && Remaining(issued, now, CodeKey(mobile, scene)) == settings.codeExpireSeconds
      && Lookup(issued, now, RateKey(mobile)) == Some("1")
      && Remaining(issued, now, RateKey(mobile)) == settings.codeRateLimit
      && !Live(issued, now, AttemptKey(mobile, scene))
      && forall k :: k != CodeKey(mobile, scene) && k != RateKey(mobile) && k != AttemptKey(mobile, scene) ==>
           (k in issued <==> k in m) && (k in m ==> issued[k] == m[k])
  {
    KeyFamiliesDisjoint(mobile, scene, mobile, mobile, scene);
  }

  /** An allowed send runs the pipeline whatever the notifier answers; the answer is the notifier's. */
  lemma AllowedSendWrites(m: Entries, now: int, mobile: string, scene: string, code: string,
                          settings: Settings, robot: Robot, sig: Signature, response: Response)
    requires Usable(settings) && RateCheck(m, now, mobile).0
    ensures var s := SendStep(m, now, mobile, scene, code, settings, robot, sig, response);
      && s.entries == Issue(m, now, mobile, scene, code, settings)
      && s.ok == s.notice.value.ok
      && (!s.ok ==> s.message == s.notice.value.message)
      && Lookup(s.entries, now, CodeKey(mobile, scene)) == Some(code)
      && Lookup(s.entries, now, RateKey(mobile)) == Some("1")
      && !Live(s.entries, now, AttemptKey(mobile, scene))
  {
    IssueWrites(m, now, mobile, scene, code, settings);
  }

  /**
   * The rate-limit key ignores the scene: after one allowed send, every send
   * to the same phone, in any scene, is refused without effect until
   * CODE_RATE_LIMIT seconds have passed.
   */
  lemma OneSendBlocksEveryScene(m: Entries, now: int, mobile: string, scene: string, code: string,
                                settings: Settings, later: int, otherScene: string, otherCode: string,
                                robot: Robot, sig: Signature, response: Response)
    requires Usable(settings) && RateCheck(m, now, mobile).0
    requires now <= later < now + settings.codeRateLimit
    ensures var issued := Issue(m, now, mobile, scene, code, settings);
      && !RateCheck(issued, later, mobile).0
      && SendStep(issued, later, mobile, otherScene, otherCode, settings, robot, sig, response).entries == issued
      && !SendStep(issued, later, mobile, otherScene, otherCode, settings, robot, sig, response).ok
  {
    var issued := Issue(m, now, mobile, scene, code, settings);
    KeyFamiliesDisjoint(mobile, scene, mobile, mobile, scene);
    assert issued[RateKey(mobile)] == Entry("1", Some(now + settings.codeRateLimit));
  }

  // -------------------------------------------------------- verify_code

  /**
   * What a store read in the service gives: the reply of an awaited command,
   * or, where the call is not awaited, the coroutine object itself (truthy,
   * equal to no string, and refused by int() with a TypeError).
   */
  datatype Read<T> = Awaited(value: T) | Coroutine

  /** Python truthiness of a GET result. */
  predicate Truthy(r: Read<Option<string>>)
  {
    r.Coroutine? || (r.value.Some? && r.value.value != "")
  }

  /** The branch verify_code takes; `attempts` is the counter it read. */
  datatype Verdict = NotFound | Raises(error: string) | Exhausted | Mismatch(attempts: nat) | Match

  /** `int(attempts) if attempts else 0`, for a counter read that int() accepts. */
  function CurrentAttempts(attempts: Read<Option<string>>): nat
  {
    if Truthy(attempts) && attempts.Awaited? && ParseNat(attempts.value.value).Some?
    then ParseNat(attempts.value.value).value else 0
  }

  /**
   * The decision chain of verify_code on what its two reads returned: no
   * code; the counter not an int (the exception int() raises); the counter
   * at the cap; a code that differs; or the code itself.
   */
  function Judge(stored: Read<Option<string>>, attempts: Read<Option<string>>, code: string,
                 maxAttempts: int): (v: Verdict)
    ensures v.NotFound? <==> !Truthy(stored)
    ensures v.Raises? <==> (Truthy(stored) && Truthy(attempts) &&
      (attempts.Coroutine? || ParseNat(attempts.value.value).None?))
    ensures v.Exhausted? <==> (Truthy(stored) && !v.Raises? && CurrentAttempts(attempts) >= maxAttempts)
    ensures v.Match? <==> (Truthy(stored) && !v.Raises? && CurrentAttempts(attempts) < maxAttempts &&
      stored == Awaited(Some(code)))
    ensures v.Mismatch? ==> v.attempts == CurrentAttempts(attempts) < maxAttempts && stored != Awaited(Some(code))
  {
    if !Truthy(stored) then NotFound
    else if Truthy(attempts) && attempts.Coroutine? then Raises("TypeError")
    else if Truthy(attempts) && ParseNat(attempts.value.value).None? then Raises("ValueError")
    else
      var current := CurrentAttempts(attempts);
      if current >= maxAttempts then Exhausted
      else if stored.Coroutine? || stored.value.value != code then Mismatch(current)
      else Match
  }

  /** verify_code's answer: (success, message), or the exception it lets escape. */
  datatype Answer = Answer(ok: bool, message: string) | Escaped(error: string)

  /** The store commands each branch of verify_code issues, and its answer. */
  function Apply(m: Entries, now: int, mobile: string, scene: string, settings: Settings, verdict: Verdict): (Entries, Answer)
  {
    var codeKey := CodeKey(mobile, scene);
    var attemptKey := AttemptKey(mobile, scene);
    match verdict
    case NotFound => (m, Answer(false, CodeNotFound))
    case Raises(e) => (m, Escaped(e))
    case Exhausted => (m - {codeKey}, Answer(false, TooManyAttempts))
    case Mismatch(n) =>
      (match Increment(m, now, attemptKey)
       case None => (m, Escaped("ResponseError"))
       case Some((counted, _)) =>
         (Reexpire(counted, now, attemptKey, settings.codeExpireSeconds).0,
          Answer(false, WrongCode(settings.maxVerifyAttempts - n - 1))))
    case Match => (m - {codeKey} - {attemptKey}, Answer(true, Verified))
  }

  /**
   * verify_code with both reads awaited: it succeeds only on the live stored
   * code, which is then gone; an exception leaves the store as it was, and
   * int() never meets a coroutine.
   */
  function VerifyStep(m: Entries, now: int, mobile: string, code: string, scene: string, settings: Settings): (r: (Entries, Answer))
    ensures r.1.Answer? && r.1.ok ==> Lookup(m, now, CodeKey(mobile, scene)) == Some(code) && code != ""
    ensures r.1.Answer? && r.1.ok ==> CodeKey(mobile, scene) !in r.0 && AttemptKey(mobile, scene) !in r.0
    ensures r.1.Escaped? ==> r.0 == m && r.1.error != "TypeError"
  {
    var stored := Lookup(m, now, CodeKey(mobile, scene));
    var attempts := Lookup(m, now, AttemptKey(mobile, scene));
    Apply(m, now, mobile, scene, settings, Judge(Awaited(stored), Awaited(attempts), code, settings.maxVerifyAttempts))
  }

  /**
   * verify_code as written: neither GET is awaited, so the code "exists",
   * and int() of the second coroutine raises TypeError before anything is
   * compared or changed, on every call.
   */
  function VerifyAsWritten(m: Entries, now: int, mobile: string, code: string, scene: string,
                           settings: Settings): (r: (Entries, Answer))
    ensures r == (m, Escaped("TypeError"))
  {
    Apply(m, now, mobile, scene, settings, Judge(Coroutine, Coroutine, code, settings.maxVerifyAttempts))
  }

  /** The attempt counter as int() reads it: 0 when the key is missing. */
  predicate CounterReads(m: Entries, now: int, mobile: string, scene: string, n: nat)
  {
    var attempts := Lookup(m, now, AttemptKey(mobile, scene));
    (attempts == None && n == 0) || attempts == Some(NatToString(n))
  }

  lemma CounterParses(m: Entries, now: int, mobile: string, scene: string, n: nat)
    requires CounterReads(m, now, mobile, scene, n)
    ensures var attempts := Awaited(Lookup(m, now, AttemptKey(mobile, scene)));
      Truthy(attempts) ==> ParseNat(attempts.value.value) == Some(n)
  {
    ParseNatToString(n);
  }

  /** Without a live, non-empty code the answer is "not found" and nothing changes. */
  lemma VerifyWithoutCode(m: Entries, now: int, mobile: string, code: string, scene: string, settings: Settings)
    requires Lookup(m, now, CodeKey(mobile, scene)) in {None, Some("")}
    ensures VerifyStep(m, now, mobile, code, scene, settings) == (m, Answer(false, CodeNotFound))
  {
  }

  /**
   * With the counter at the cap, only the code key is deleted (the counter
   * stays) and the call fails, even with the right code.
   */
  lemma VerifyExhausted(m: Entries, now: int, mobile: string, code: string, scene: string, settings: Settings,
                        stored: string, n: nat)
    requires Lookup(m, now, CodeKey(mobile, scene)) == Some(stored) && stored != ""
    requires CounterReads(m, now, mobile, scene, n) && n >= settings.maxVerifyAttempts
    ensures VerifyStep(m, now, mobile, code, scene, settings) == (m - {CodeKey(mobile, scene)}, Answer(false, TooManyAttempts))
  {
    CounterParses(m, now, mobile, scene, n);
  }

  /**
   * A wrong code below the cap moves the counter up by exactly one and gives
   * it CODE_EXPIRE_SECONDS to live; the code, and every key other than the
   * counter, is left as it was. The answer names MAX_VERIFY_ATTEMPTS - n - 1.
   */
  lemma VerifyMismatch(m: Entries, now: int, mobile: string, code: string, scene: string, settings: Settings,
                       stored: string, n: nat)
    requires Usable(settings)
    requires Lookup(m, now, CodeKey(mobile, scene)) == Some(stored) && stored != "" && code != stored
    requires CounterReads(m, now, mobile, scene, n) && n < settings.maxVerifyAttempts
    ensures var (after, answer) := VerifyStep(m, now, mobile, code, scene, settings);
      && answer == Answer(false, WrongCode(settings.maxVerifyAttempts - n - 1))
      && CounterReads(after, now, mobile, scene, n + 1)
      && Remaining(after, now, AttemptKey(mobile, scene)) == settings.codeExpireSeconds
      && Lookup(after, now, CodeKey(mobile, scene)) == Some(stored)
      && forall k :: k != AttemptKey(mobile, scene) ==> (k in after <==> k in m) && (k in m ==> after[k] == m[k])
  {
    var attemptKey := AttemptKey(mobile, scene);
    CounterParses(m, now, mobile, scene, n);
    assert Judge(Awaited(Lookup(m, now, CodeKey(mobile, scene))), Awaited(Lookup(m, now, attemptKey)),
                 code, settings.maxVerifyAttempts) == Mismatch(n);
    if Live(m, now, attemptKey) {
      IncrementCounts(m, now, attemptKey, n);
    } else {
      IncrementStarts(m, now, attemptKey);
    }
    var counted := Increment(m, now, attemptKey).value.0;
    ReexpireSetsTtl(counted, now, attemptKey, settings.codeExpireSeconds);
    KeyFamiliesDisjoint(mobile, scene, mobile, mobile, scene);
  }

  /** The part of a wrong guess later guesses depend on: the answer, the counter one higher, the code kept. */
  lemma MissCounts(m: Entries, now: int, mobile: string, code: string, scene: string, settings: Settings,
                   stored: string, n: nat)
    requires Usable(settings)
    requires Lookup(m, now, CodeKey(mobile, scene)) == Some(stored) && stored != "" && code != stored
    requires CounterReads(m, now, mobile, scene, n) && n < settings.maxVerifyAttempts
    ensures var r := VerifyStep(m, now, mobile, code, scene, settings);
      && r.1 == Answer(false, WrongCode(settings.maxVerifyAttempts - n - 1))
      && CounterReads(r.0, now, mobile, scene, n + 1)
      && Lookup(r.0, now, CodeKey(mobile, scene)) == Some(stored)
  {
    VerifyMismatch(m, now, mobile, code, scene, settings, stored, n);
  }

  /**
   * The right code below the cap succeeds and deletes the code and the
   * counter, so verifying again at once answers "not found".
   */
  lemma VerifyMatchIsOneShot(m: Entries, now: int, mobile: string, code: string, scene: string, settings: Settings,
                             n: nat, again: string)
    requires Lookup(m, now, CodeKey(mobile, scene)) == Some(code) && code != ""
    requires CounterReads(m, now, mobile, scene, n) && n < settings.maxVerifyAttempts
    ensures var (after, answer) := VerifyStep(m, now, mobile, code, scene, settings);
      && answer == Answer(true, Verified)
      && after == m - {CodeKey(mobile, scene)} - {AttemptKey(mobile, scene)}
      && VerifyStep(after, now, mobile, again, scene, settings) == (after, Answer(false, CodeNotFound))
  {
    CounterParses(m, now, mobile, scene, n);
  }

  /** verify_code never touches a rate-limit key, whatever branch it takes. */
  lemma VerifyLeavesRateLimitAlone(m: Entries, now: int, mobile: string, code: string, scene: string,
                                   settings: Settings, anyMobile: string)
    ensures var after := VerifyStep(m, now, mobile, code, scene, settings).0;
      (RateKey(anyMobile) in after <==> RateKey(anyMobile) in m) &&
      (RateKey(anyMobile) in m ==> after[RateKey(anyMobile)] == m[RateKey(anyMobile)])
  {
    KeyFamiliesDisjoint(mobile, scene, anyMobile, mobile, scene);
  }

  /**
   * A code just sent verifies (with a positive cap) once; as written,
   * verify_code raises TypeError on that very code instead.
   */
  lemma SentCodeVerifies(m: Entries, now: int, mobile: string, scene: string, code: string,
                         settings: Settings, robot: Robot, sig: Signature, response: Response)
    requires Usable(settings) && settings.maxVerifyAttempts > 0
    requires RateCheck(m, now, mobile).0 && code != ""
    ensures var s := SendStep(m, now, mobile, scene, code, settings, robot, sig, response);
      && VerifyStep(s.entries, now, mobile, code, scene, settings).1 == Answer(true, Verified)
      && VerifyAsWritten(s.entries, now, mobile, code, scene, settings).1 == Escaped("TypeError")
  {
    var s := SendStep(m, now, mobile, scene, code, settings, robot, sig, response);
    AllowedSendWrites(m, now, mobile, scene, code, settings, robot, sig, response);
    VerifyMatchIsOneShot(s.entries, now, mobile, code, scene, settings, 0, code);
  }

  /** From a fresh code: a wrong guess is refused, the right one succeeds once, and then nothing is found. */
  lemma MissThenMatch(m0: Entries, now: int, mobile: string, scene: string, settings: Settings,
                      code: string, wrong: string)
    requires Usable(settings) && settings.maxVerifyAttempts > 1
    requires Lookup(m0, now, CodeKey(mobile, scene)) == Some(code) && CounterReads(m0, now, mobile, scene, 0)
    requires code != "" && wrong != code
    ensures var m1 := VerifyStep(m0, now, mobile, wrong, scene, settings).0;
      var m2 := VerifyStep(m1, now, mobile, code, scene, settings).0;
      && VerifyStep(m0, now, mobile, wrong, scene, settings).1 == Answer(false, WrongCode(settings.maxVerifyAttempts - 1))
      && VerifyStep(m1, now, mobile, code, scene, settings).1 == Answer(true, Verified)
      && VerifyStep(m2, now, mobile, code, scene, settings).1 == Answer(false, CodeNotFound)
  {
    MissCounts(m0, now, mobile, wrong, scene, settings, code, 0);
    var m1 := VerifyStep(m0, now, mobile, wrong, scene, settings).0;
    VerifyMatchIsOneShot(m1, now, mobile, code, scene, settings, 1, code);
  }

  /**
   * With settings of 300 s, 60 s and 3 attempts: a code is sent, a wrong one
   * is refused with 2 attempts left, the right one then succeeds, and the
   * right one again finds no code.
   */
  lemma ExampleSession(m: Entries, now: int, mobile: string, scene: string, code: string, wrong: string,
                       robot: Robot, sig: Signature, response: Response)
    requires RateCheck(m, now, mobile).0
    requires code != "" && wrong != code
    ensures var settings := Settings(6, 300, 60, 3);
      var m0 := SendStep(m, now, mobile, scene, code, settings, robot, sig, response).entries;
      var m1 := VerifyStep(m0, now, mobile, wrong, scene, settings).0;
      var m2 := VerifyStep(m1, now, mobile, code, scene, settings).0;
      && VerifyStep(m0, now, mobile, wrong, scene, settings).1 == Answer(false, WrongCode(2))
      && VerifyStep(m1, now, mobile, code, scene, settings).1 == Answer(true, Verified)
      && VerifyStep(m2, now, mobile, code, scene, settings).1 == Answer(false, CodeNotFound)
  {
    var settings := Settings(6, 300, 60, 3);
    var m0 := SendStep(m, now, mobile, scene, code, settings, robot, sig, response).entries;
    AllowedSendWrites(m, now, mobile, scene, code, settings, robot, sig, response);
    assert CounterReads(m0, now, mobile, scene, 0);
    MissThenMatch(m0, now, mobile, scene, settings, code, wrong);
  }

  /** Submitting `guesses` one after another through `step`: the keyspace at the end and each submission's answer. */
  function Run<S, A>(m: S, step: (S, string) -> (S, A), guesses: seq<string>): (r: (S, seq<A>))
    ensures |r.1| == |guesses|
    decreases |guesses|
  {
    if guesses == [] then (m, [])
    else
      var (next, answer) := step(m, guesses[0]);
      var (last, answers) := Run(next, step, guesses[1..]);
      (last, [answer] + answers)
  }

  /** verify_code for one phone and scene, as a step taking the keyspace and the submitted code. */
  function Submit(now: int, mobile: string, scene: string, settings: Settings): (Entries, string) -> (Entries, Answer)
  {
    (m: Entries, code: string) => VerifyStep(m, now, mobile, code, scene, settings)
  }

  /** answerAt(n), answerAt(n + 1), ..., len of them. */
  function Answers<A>(answerAt: nat -> A, n: nat, len: nat): (r: seq<A>)
    ensures |r| == len
    decreases len
  {
    if len == 0 then [] else [answerAt(n)] + Answers(answerAt, n + 1, len - 1)
  }

  /** The i-th of Answers(answerAt, n, len) is answerAt(n + i). */
  lemma {:induction false} AnswersAt<A>(answerAt: nat -> A, n: nat, len: nat, i: nat)
    requires i < len
    ensures Answers(answerAt, n, len)[i] == answerAt(n + i)
    decreases len
  {
    if i > 0 {
      AnswersAt(answerAt, n + 1, len - 1, i - 1);
    }
  }

  /**
   * A run of submissions, each acceptable to `ok`, where one submission moves
   * a keyspace in state k < cap to state k + 1 with answer answerAt(k): from
   * state n it ends in state n + |guesses|, answering answerAt(n),
   * answerAt(n + 1), ... in turn.
   */
  lemma {:induction false} RunCounts<S, A>(m: S, step: (S, string) -> (S, A), guesses: seq<string>,
                                           ok: string -> bool, state: (S, nat) -> bool, answerAt: nat -> A,
                                           n: nat, cap: nat)
    requires n + |guesses| <= cap
    requires forall i :: 0 <= i < |guesses| ==> ok(guesses[i])
    requires state(m, n)
    requires forall mm, k: nat, g {:trigger state(mm, k), step(mm, g)} ::
      (k < cap && ok(g) && state(mm, k) ==> state(step(mm, g).0, k + 1) && step(mm, g).1 == answerAt(k))
    ensures state(Run(m, step, guesses).0, n + |guesses|)
    ensures Run(m, step, guesses).1 == Answers(answerAt, n, |guesses|)
    decreases |guesses|
  {
    if guesses != [] {
      var (next, answer) := step(m, guesses[0]);
      assert ok(guesses[0]);
      assert state(next, n + 1) && answer == answerAt(n);
      var rest := guesses[1..];
      assert forall i :: 0 <= i < |rest| ==> ok(rest[i]) by {
        forall i | 0 <= i < |rest| ensures ok(rest[i]) {
          assert rest[i] == guesses[i + 1];
        }
      }
      RunCounts(next, step, rest, ok, state, answerAt, n + 1, cap);
      assert Run(m, step, guesses) == (Run(next, step, rest).0, [answer] + Run(next, step, rest).1);
      assert Answers(answerAt, n, |guesses|) == [answerAt(n)] + Answers(answerAt, n + 1, |rest|);
    }
  }

  /** A live code `code` with its attempt counter reading k. */
  predicate PendingAt(m: Entries, now: int, mobile: string, scene: string, code: string, k: nat)
  {
    Lookup(m, now, CodeKey(mobile, scene)) == Some(code) && CounterReads(m, now, mobile, scene, k)
  }

  /** PendingAt as a state of the keyspace. */
  function Pending(now: int, mobile: string, scene: string, code: string): (Entries, nat) -> bool
  {
    (m: Entries, k: nat) => PendingAt(m, now, mobile, scene, code, k)
  }

  /** Any code other than `code`. */
  function Other(code: string): string -> bool
  {
    (g: string) => g != code
  }

  /** The answer to a wrong code with the counter at k. */
  function MissAnswer(settings: Settings): nat -> Answer
  {
    (k: nat) => Answer(false, WrongCode(settings.maxVerifyAttempts - k - 1))
  }

  /** Pending applied: a live `code` whose counter reads k. */
  lemma PendingIs(now: int, mobile: string, scene: string, code: string, m: Entries, k: nat)
    ensures Pending(now, mobile, scene, code)(m, k) <==>
      Lookup(m, now, CodeKey(mobile, scene)) == Some(code) && CounterReads(m, now, mobile, scene, k)
  {
  }

  /** MissAnswer applied: a refusal leaving maxVerifyAttempts - k - 1 attempts. */
  lemma MissAnswerIs(settings: Settings, k: nat)
    ensures MissAnswer(settings)(k) == Answer(false, WrongCode(settings.maxVerifyAttempts - k - 1))
  {
  }

  /** The i-th of the answers MissAnswer(0), MissAnswer(1), ... leaves maxVerifyAttempts - i - 1 attempts. */
  lemma MissAnswersAt(settings: Settings, len: nat, i: nat)
    requires i < len
    ensures Answers(MissAnswer(settings), 0, len)[i] == Answer(false, WrongCode(settings.maxVerifyAttempts - i - 1))
  {
    AnswersAt(MissAnswer(settings), 0, len, i);
    assert 0 + i == i;
  }

  /** One wrong code below the cap, as a step: the code stays, the counter goes from k to k + 1, and one attempt fewer is left. */
  lemma SubmitMiss(now: int, mobile: string, scene: string, settings: Settings, code: string,
                   mm: Entries, k: nat, g: string)
    requires Usable(settings) && code != ""
    requires k < settings.maxVerifyAttempts && g != code
    requires Lookup(mm, now, CodeKey(mobile, scene)) == Some(code) && CounterReads(mm, now, mobile, scene, k)
    ensures Lookup(Submit(now, mobile, scene, settings)(mm, g).0, now, CodeKey(mobile, scene)) == Some(code)
    ensures CounterReads(Submit(now, mobile, scene, settings)(mm, g).0, now, mobile, scene, k + 1)
    ensures Submit(now, mobile, scene, settings)(mm, g).1 == Answer(false, WrongCode(settings.maxVerifyAttempts - k - 1))
  {
    MissCounts(mm, now, mobile, g, scene, settings, code, k);
    var r := VerifyStep(mm, now, mobile, g, scene, settings);
    assert Submit(now, mobile, scene, settings)(mm, g) == r;
  }

  /** SubmitMiss in the terms RunCounts asks for. */
  lemma SubmitMissPending(now: int, mobile: string, scene: string, settings: Settings, code: string,
                          mm: Entries, k: nat, g: string)
    requires Usable(settings) && code != ""
    requires k < settings.maxVerifyAttempts && Other(code)(g) && Pending(now, mobile, scene, code)(mm, k)
    ensures Pending(now, mobile, scene, code)(Submit(now, mobile, scene, settings)(mm, g).0, k + 1)
    ensures Submit(now, mobile, scene, settings)(mm, g).1 == MissAnswer(settings)(k)
  {
    PendingIs(now, mobile, scene, code, mm, k);
    SubmitMiss(now, mobile, scene, settings, code, mm, k, g);
    var r := Submit(now, mobile, scene, settings)(mm, g);
    PendingIs(now, mobile, scene, code, r.0, k + 1);
    MissAnswerIs(settings, k);
  }

  /** Every wrong code below the cap is such a step. */
  lemma SubmitMisses(now: int, mobile: string, scene: string, settings: Settings, code: string)
    requires Usable(settings) && code != ""
    ensures forall mm, k: nat, g
      {:trigger Pending(now, mobile, scene, code)(mm, k), Submit(now, mobile, scene, settings)(mm, g)} ::
      (k < settings.maxVerifyAttempts && Other(code)(g) && Pending(now, mobile, scene, code)(mm, k) ==>
      Pending(now, mobile, scene, code)(Submit(now, mobile, scene, settings)(mm, g).0, k + 1) &&
      Submit(now, mobile, scene, settings)(mm, g).1 == MissAnswer(settings)(k))
  {
    forall mm, k: nat, g
      {:trigger Pending(now, mobile, scene, code)(mm, k), Submit(now, mobile, scene, settings)(mm, g)}
      | k < settings.maxVerifyAttempts && Other(code)(g) && Pending(now, mobile, scene, code)(mm, k)
      ensures Pending(now, mobile, scene, code)(Submit(now, mobile, scene, settings)(mm, g).0, k + 1)
      ensures Submit(now, mobile, scene, settings)(mm, g).1 == MissAnswer(settings)(k)
    {
      SubmitMissPending(now, mobile, scene, settings, code, mm, k, g);
    }
  }

  /** Wrong codes from a pending code with counter 0: the counter ends at their number and they answer MissAnswer(0), MissAnswer(1), ... */
  lemma MissesRun(m: Entries, now: int, mobile: string, scene: string, settings: Settings,
                  code: string, wrongs: seq<string>)
    requires Usable(settings) && code != "" && |wrongs| <= settings.maxVerifyAttempts
    requires forall i :: 0 <= i < |wrongs| ==> wrongs[i] != code
    requires Pending(now, mobile, scene, code)(m, 0)
    ensures Pending(now, mobile, scene, code)(Run(m, Submit(now, mobile, scene, settings), wrongs).0, |wrongs|)
    ensures Run(m, Submit(now, mobile, scene, settings), wrongs).1 == Answers(MissAnswer(settings), 0, |wrongs|)
  {
    SubmitMisses(now, mobile, scene, settings, code);
    RunCounts(m, Submit(now, mobile, scene, settings), wrongs, Other(code), Pending(now, mobile, scene, code),
              MissAnswer(settings), 0, settings.maxVerifyAttempts);
  }

  /**
   * From a fresh code, MAX_VERIFY_ATTEMPTS wrong codes, whatever the cap:
   * each is refused with one attempt fewer left, and the right code after
   * them is refused as well and purges the code.
   */
  lemma LockOut(m: Entries, now: int, mobile: string, scene: string, settings: Settings,
                code: string, wrongs: seq<string>)
    requires Usable(settings)
    requires Lookup(m, now, CodeKey(mobile, scene)) == Some(code) && code != ""
    requires CounterReads(m, now, mobile, scene, 0)
    requires |wrongs| == settings.maxVerifyAttempts
    requires forall i :: 0 <= i < |wrongs| ==> wrongs[i] != code
    ensures var (last, answers) := Run(m, Submit(now, mobile, scene, settings), wrongs);
      && (forall i :: 0 <= i < |wrongs| ==> answers[i] == Answer(false, WrongCode(settings.maxVerifyAttempts - i - 1)))
      && VerifyStep(last, now, mobile, code, scene, settings) == (last - {CodeKey(mobile, scene)}, Answer(false, TooManyAttempts))
  {
    assert Pending(now, mobile, scene, code)(m, 0);
    MissesRun(m, now, mobile, scene, settings, code, wrongs);
    var last := Run(m, Submit(now, mobile, scene, settings), wrongs).0;
    var answers := Run(m, Submit(now, mobile, scene, settings), wrongs).1;
    forall i | 0 <= i < |wrongs|
      ensures answers[i] == Answer(false, WrongCode(settings.maxVerifyAttempts - i - 1))
    {
      MissAnswersAt(settings, |wrongs|, i);
    }
    assert PendingAt(last, now, mobile, scene, code, |wrongs|);
    VerifyExhausted(last, now, mobile, code, scene, settings, code, |wrongs|);
  }

  /**
   * After a send, MAX_VERIFY_ATTEMPTS wrong codes use the code up: each is
   * refused with one attempt fewer left, then the right one is refused and
   * the code is gone.
   */
  lemma ExhaustionSession(m: Entries, now: int, mobile: string, scene: string, code: string, wrongs: seq<string>,
                          settings: Settings, robot: Robot, sig: Signature, response: Response)
    requires Usable(settings) && RateCheck(m, now, mobile).0
    requires code != "" && |wrongs| == settings.maxVerifyAttempts
    requires forall i :: 0 <= i < |wrongs| ==> wrongs[i] != code
    ensures var m0 := SendStep(m, now, mobile, scene, code, settings, robot, sig, response).entries;
      var (last, answers) := Run(m0, Submit(now, mobile, scene, settings), wrongs);
      && (forall i :: 0 <= i < |wrongs| ==> answers[i] == Answer(false, WrongCode(settings.maxVerifyAttempts - i - 1)))
      && VerifyStep(last, now, mobile, code, scene, settings).1 == Answer(false, TooManyAttempts)
      && !Live(VerifyStep(last, now, mobile, code, scene, settings).0, now, CodeKey(mobile, scene))
  {
    var m0 := SendStep(m, now, mobile, scene, code, settings, robot, sig, response).entries;
    AllowedSendWrites(m, now, mobile, scene, code, settings, robot, sig, response);
    assert CounterReads(m0, now, mobile, scene, 0);
    LockOut(m0, now, mobile, scene, settings, code, wrongs);
  }

  // ------------------------------------------------------ get_code_info

  /** The debugging record get_code_info returns. */
  datatype CodeInfo = CodeInfo(code: Read<Option<string>>, expiresIn: Read<int>, mobile: string, scene: string)

  /** get_code_info on what its two reads returned: a record exactly when the code read is truthy. */
  function InfoOf(code: Read<Option<string>>, ttl: Read<int>, mobile: string, scene: string): Option<CodeInfo>
  {
    if Truthy(code) then Some(CodeInfo(code, ttl, mobile, scene)) else None
  }

  /** get_code_info with both reads awaited: the live code and its TTL, or None. */
  function CodeInfoOf(m: Entries, now: int, mobile: string, scene: string): (r: Option<CodeInfo>)
    ensures r.Some? <==> Live(m, now, CodeKey(mobile, scene)) && m[CodeKey(mobile, scene)].value != ""
    ensures r.Some? ==> r.value.code == Awaited(Some(m[CodeKey(mobile, scene)].value))
    ensures r.Some? ==> r.value.expiresIn == Awaited(Remaining(m, now, CodeKey(mobile, scene)))
    ensures r.Some? ==> (r.value.expiresIn.Awaited? &&
      (r.value.expiresIn.value == -1 || r.value.expiresIn.value > 0))
    ensures r.Some? ==> r.value.mobile == mobile && r.value.scene == scene
  {
    var key := CodeKey(mobile, scene);
    InfoOf(Awaited(Lookup(m, now, key)), Awaited(Remaining(m, now, key)), mobile, scene)
  }

  /** get_code_info as written: neither read is awaited, so a record comes back even for a phone with no code. */
  function CodeInfoAsWritten(m: Entries, now: int, mobile: string, scene: string): (r: Option<CodeInfo>)
    ensures r == Some(CodeInfo(Coroutine, Coroutine, mobile, scene))
  {
    InfoOf(Coroutine, Coroutine, mobile, scene)
  }

  /** Where no code is live the two disagree: as written a record, as intended None. */
  lemma CodeInfoForMissingCode(m: Entries, now: int, mobile: string, scene: string)
    requires !Live(m, now, CodeKey(mobile, scene))
    ensures CodeInfoAsWritten(m, now, mobile, scene).Some?
    ensures CodeInfoOf(m, now, mobile, scene).None?
  {
  }

  // ------------------------------------------------------------ service

  /** The service: its store, the four settings and the notifier's robot. */
  class VerificationService {
    const store: Store
    const settings: Settings
    const robot: Robot

    constructor (store: Store, settings: Settings, robot: Robot)
      requires Usable(settings)
      ensures this.store == store && this.settings == settings && this.robot == robot
    {
      this.store := store;
      this.settings := settings;
      this.robot := robot;
    }

    /** check_rate_limit on the live store: refused, with the seconds still to wait, exactly while the marker lives with an expiry. */
    function CheckRateLimit(mobile: string): (r: (bool, Option<int>))
      reads store
      ensures r.0 <==> !Live(store.entries, store.now, RateKey(mobile)) || store.entries[RateKey(mobile)].expireAt.None?
      ensures r.0 ==> r.1.None?
      ensures !r.0 ==> r.1.Some? && r.1.value > 0 && store.now + r.1.value == store.entries[RateKey(mobile)].expireAt.value
    {
      RateCheck(store.entries, store.now, mobile)
    }

    /** get_code_info on the live store, reads awaited: a record exactly while a non-empty code lives. */
    function GetCodeInfo(mobile: string, scene: string): (r: Option<CodeInfo>)
      reads store
      ensures r.Some? <==> Live(store.entries, store.now, CodeKey(mobile, scene)) &&
                           store.entries[CodeKey(mobile, scene)].value != ""
      ensures r.Some? ==> r.value.code == Awaited(Some(store.entries[CodeKey(mobile, scene)].value))
      ensures r.Some? ==> r.value.expiresIn == Awaited(Remaining(store.entries, store.now, CodeKey(mobile, scene)))
      ensures r.Some? ==> r.value.mobile == mobile && r.value.scene == scene
      ensures r == CodeInfoOf(store.entries, store.now, mobile, scene)
    {
      CodeInfoOf(store.entries, store.now, mobile, scene)
    }

    /**
     * send_code: the numeric code drawn from `draws`, the pipeline run as
     * three store commands, then the notifier, whose webhook reply is `response`.
     */
    method SendCode(mobile: string, scene: string, draws: seq<int>, sig: Signature, response: Response)
      returns (ok: bool, message: string, code: Option<string>, notice: Option<Delivery>)
      requires Usable(settings)
      requires |draws| == Times(NumericLength(None, settings.codeLength))
      requires forall i :: 0 <= i < |draws| ==> 0 <= draws[i] <= 9
      modifies store
      ensures store.now == old(store.now)
      ensures Sent(store.entries, ok, message, code, notice)
           == SendStep(old(store.entries), store.now, mobile, scene, GenerateNumericCode(None, settings.codeLength, draws),
                       settings, robot, sig, response)
    {
      var (allowed, wait) := CheckRateLimit(mobile);
      if !allowed {
        return false, RateLimited(wait.value), None, None;
      }
      var generated := GenerateNumericCode(None, settings.codeLength, draws);
      store.SetEx(CodeKey(mobile, scene), settings.codeExpireSeconds, generated);
      store.SetEx(RateKey(mobile), settings.codeRateLimit, "1");
      var removed := store.Delete(AttemptKey(mobile, scene));
      var d := SendVerificationCode(robot, settings.codeExpireSeconds, mobile, generated, scene, sig, response);
      notice := Some(d);
      if !d.ok {
        return false, d.message, None, notice;
      }
      return true, CodeSent, Some(generated), notice;
    }

    /** verify_code with its reads awaited, one store command at a time. */
    method VerifyCode(mobile: string, code: string, scene: string) returns (answer: Answer)
      requires Usable(settings)
      modifies store
      ensures store.now == old(store.now)
      ensures (store.entries, answer) == VerifyStep(old(store.entries), store.now, mobile, code, scene, settings)
    {
      var codeKey := CodeKey(mobile, scene);
      var attemptKey := AttemptKey(mobile, scene);
      var stored := store.Get(codeKey);
      var attempts := store.Get(attemptKey);
      match Judge(Awaited(stored), Awaited(attempts), code, settings.maxVerifyAttempts)
      case NotFound =>
        answer := Answer(false, CodeNotFound);
      case Raises(e) =>
        answer := Escaped(e);
      case Exhausted =>
        var removed := store.Delete(codeKey);
        answer := Answer(false, TooManyAttempts);
      case Mismatch(n) =>
        var count := store.Incr(attemptKey);
        if count.None? {
          answer := Escaped("ResponseError");
        } else {
          var applied := store.Expire(attemptKey, settings.codeExpireSeconds);
          answer := Answer(false, WrongCode(settings.maxVerifyAttempts - n - 1));
        }
      case Match =>
        var removedCode := store.Delete(codeKey);
        var removedCounter := store.Delete(attemptKey);
        answer := Answer(true, Verified);
    }
  }
}
