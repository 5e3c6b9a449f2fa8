// The DingTalk webhook robot and the verification notifier built on it
// (ainewsback/utils/dingtalk_robot.py), without the network: the clock's
// timestamp and the HMAC signature arrive as a Signature, and the outcome of
// the HTTP POST arrives as a Response.
module DingTalk {
  import opened Common

  /** The robot's configuration: webhook address and optional signing secret. */
  datatype Robot = Robot(webhookUrl: string, secret: Option<string>)

  /** The millisecond timestamp and the URL-quoted HMAC-SHA256 signature made from it. */
  datatype Signature = Signature(timestamp: string, sign: string)

  /** A JSON scalar, as the errcode field of a reply may hold one. */
  datatype Json = JNull | JBool(b: bool) | JInt(i: int) | JReal(r: real) | JStr(s: string)

  /**
   * What became of the POST: a parsed JSON object with its errcode field and
   * the str() of its errmsg field (None when a field is absent), a timeout, or
   * any other exception, with the exception's text.
   */
  datatype Response =
    | Reply(errcode: Option<Json>, errmsg: Option<string>)
    | Timeout
    | Raised(error: string)

  /** The `at` block of a message: whom to mention. */
  datatype At = At(atMobiles: seq<string>, isAtAll: bool)

  /** The JSON body posted to the webhook. */
  datatype Payload =
    | TextMessage(content: string, at: At)
    | MarkdownMessage(title: string, text: string, at: At)

  /** The payload's "msgtype" field. */
  function MsgType(p: Payload): string
  {
    if p.TextMessage? then "text" else "markdown"
  }

  /** What one send did: the URL posted to, the body, and the (success, message) it reported. */
  datatype Delivery = Delivery(url: string, payload: Payload, ok: bool, message: string)

  /** A secret is used only when it is present and not empty. */
  predicate HasSecret(robot: Robot)
  {
    robot.secret.Some? && robot.secret.value != ""
  }

  /** _get_signed_url: the bare webhook without a secret, otherwise the webhook with timestamp and sign appended. */
  function SignedUrl(robot: Robot, sig: Signature): (url: string)
    ensures !HasSecret(robot) ==> url == robot.webhookUrl
    ensures HasSecret(robot) ==> StartsWith(url, robot.webhookUrl)
    ensures HasSecret(robot) ==> url[|robot.webhookUrl|..] == "&timestamp=" + sig.timestamp + "&sign=" + sig.sign
  {
    if !HasSecret(robot) then robot.webhookUrl
    else robot.webhookUrl + "&timestamp=" + sig.timestamp + "&sign=" + sig.sign
  }

  /** Python's `value == 0` for a JSON scalar: False and 0.0 are equal to 0 as well. */
  predicate EqualsZero(v: Json)
  {
    match v
    case JBool(b) => !b
    case JInt(i) => i == 0
    case JReal(r) => r == 0.0
    case _ => false
  }

  const SendOk: string := "发送成功"
  const SendFailedPrefix: string := "发送失败: "
  const UnknownError: string := "未知错误"
  const SendTimeout: string := "发送超时"
  const SendExceptionPrefix: string := "发送异常: "

  /**
   * How _send_request reports a response: success exactly when errcode equals
   * 0; every failure, timeouts and exceptions included, comes back as a value.
   */
  function Classify(response: Response): (r: (bool, string))
    ensures r.0 <==> response.Reply? && response.errcode.Some? && EqualsZero(response.errcode.value)
    ensures r.0 ==> r.1 == SendOk
    ensures response.Reply? && !r.0 ==>
      r.1 == SendFailedPrefix + (if response.errmsg.Some? then response.errmsg.value else UnknownError)
    ensures response.Timeout? ==> r.1 == SendTimeout
    ensures response.Raised? ==> r.1 == SendExceptionPrefix + response.error
  {
    match response
    case Reply(errcode, errmsg) =>
      if errcode.Some? && EqualsZero(errcode.value) then (true, SendOk)
      else (false, SendFailedPrefix + (if errmsg.Some? then errmsg.value else UnknownError))
    case Timeout => (false, SendTimeout)
    case Raised(e) => (false, SendExceptionPrefix + e)
  }

  /** _send_request: post the payload to the signed URL and classify what came back. */
  function SendRequest(robot: Robot, payload: Payload, sig: Signature, response: Response): (d: Delivery)
    ensures d.payload == payload
    ensures d.url == SignedUrl(robot, sig)
    ensures !HasSecret(robot) ==> d.url == robot.webhookUrl
    ensures d.ok <==> response.Reply? && response.errcode.Some? && EqualsZero(response.errcode.value)
    ensures (d.ok, d.message) == Classify(response)
  {
    var (ok, message) := Classify(response);
    Delivery(SignedUrl(robot, sig), payload, ok, message)
  }

  /** `at_mobiles or []`: an absent list and an empty list both mention nobody. */
  function MentionList(atMobiles: Option<seq<string>>): seq<string>
  {
    if atMobiles.Some? then atMobiles.value else []
  }

  /** send_text: a "text" message with the given mentions. */
  function SendText(robot: Robot, content: string, atMobiles: Option<seq<string>>, atAll: bool,
                    sig: Signature, response: Response): (d: Delivery)
    ensures MsgType(d.payload) == "text" && d.payload.content == content
    ensures d.payload.at.atMobiles == (if atMobiles.Some? then atMobiles.value else [])
    ensures d.payload.at.isAtAll == atAll
    ensures (d.ok, d.message) == Classify(response)
  {
    SendRequest(robot, TextMessage(content, At(MentionList(atMobiles), atAll)), sig, response)
  }

  /** send_markdown: a "markdown" message with a title and the given mentions. */
  function SendMarkdown(robot: Robot, title: string, text: string, atMobiles: Option<seq<string>>,
                        atAll: bool, sig: Signature, response: Response): (d: Delivery)
    ensures MsgType(d.payload) == "markdown" && d.payload.title == title && d.payload.text == text
    ensures d.payload.at.atMobiles == (if atMobiles.Some? then atMobiles.value else [])
    ensures d.payload.at.isAtAll == atAll
    ensures (d.ok, d.message) == Classify(response)
  {
    SendRequest(robot, MarkdownMessage(title, text, At(MentionList(atMobiles), atAll)), sig, response)
  }

  /** The labels VerificationNotifier gives the known scenes. */
  const SceneMap: map<string, string> := map["login" := "登录", "register" := "注册", "reset_password" := "重置密码"]
  const OtherScene: string := "操作"

  /** scene_map.get(scene, "操作"). */
  function SceneLabel(scene: string): (text: string)
    ensures scene in SceneMap ==> text == SceneMap[scene]
    ensures text == OtherScene <==> scene !in SceneMap
  {
    if scene in SceneMap then SceneMap[scene] else OtherScene
  }

  /** The validity in whole minutes, CODE_EXPIRE_SECONDS // 60 (floor division, as Python's). */
  function Minutes(expireSeconds: int): string
  {
    IntToString(expireSeconds / 60) + "分钟"
  }

  /** The text of the plain verification message. */
  function TextContent(mobile: string, code: string, scene: string, expireSeconds: int): string
  {
    "【验证码通知】\n手机号: " + mobile + "\n验证码: " + code + "\n场景: " + SceneLabel(scene)
      + "\n有效期: " + Minutes(expireSeconds)
  }

  const MarkdownTitle: string := "验证码通知"

  /** The text of the markdown verification message. */
  function MarkdownContent(mobile: string, code: string, scene: string, expireSeconds: int): string
  {
    "### " + MarkdownTitle + "\n> **手机号:** " + mobile + "  \n> **验证码:** `" + code
      + "`  \n> **场景:** " + SceneLabel(scene) + "  \n> **有效期:** " + Minutes(expireSeconds) + "  \n"
  }

  /** The message names the phone, the code, the scene's label and the validity in minutes. */
  ghost predicate Mentions(text: string, mobile: string, code: string, scene: string, expireSeconds: int)
  {
    && Contains(text, mobile)
    && Contains(text, code)
    && Contains(text, SceneLabel(scene))
    && Contains(text, Minutes(expireSeconds))
  }

  /** In a + w + b + x + c + y + d + z, each of w, x, y and z occurs. */
  lemma FourPieces(a: string, w: string, b: string, x: string, c: string, y: string, d: string, z: string)
    ensures var s := a + w + b + x + c + y + d + z;
      Contains(s, w) && Contains(s, x) && Contains(s, y) && Contains(s, z)
  {
    ContainsSelf(w);
    ContainsExtend(w, w, a);
    ContainsExtend(a + w, w, b);
    ContainsExtend(a + w + b, w, x);
    ContainsExtend(a + w + b + x, w, c);
    ContainsExtend(a + w + b + x + c, w, y);
    ContainsExtend(a + w + b + x + c + y, w, d);
    ContainsExtend(a + w + b + x + c + y + d, w, z);
    ContainsSelf(x);
    ContainsExtend(x, x, a + w + b);
    ContainsExtend(a + w + b + x, x, c);
    ContainsExtend(a + w + b + x + c, x, y);
    ContainsExtend(a + w + b + x + c + y, x, d);
    ContainsExtend(a + w + b + x + c + y + d, x, z);
    ContainsSelf(y);
    ContainsExtend(y, y, a + w + b + x + c);
    ContainsExtend(a + w + b + x + c + y, y, d);
    ContainsExtend(a + w + b + x + c + y + d, y, z);
    ContainsSelf(z);
    ContainsExtend(z, z, a + w + b + x + c + y + d);
  }

  lemma TextContentMentions(mobile: string, code: string, scene: string, expireSeconds: int)
    ensures Mentions(TextContent(mobile, code, scene, expireSeconds), mobile, code, scene, expireSeconds)
  {
    FourPieces("【验证码通知】\n手机号: ", mobile, "\n验证码: ", code, "\n场景: ", SceneLabel(scene),
               "\n有效期: ", Minutes(expireSeconds));
  }

  lemma MarkdownContentMentions(mobile: string, code: string, scene: string, expireSeconds: int)
    ensures Mentions(MarkdownContent(mobile, code, scene, expireSeconds), mobile, code, scene, expireSeconds)
  {
    var a := "### " + MarkdownTitle + "\n> **手机号:** ";
    var b := "  \n> **验证码:** `";
    var c := "`  \n> **场景:** ";
    var d := "  \n> **有效期:** ";
    var s := a + mobile + b + code + c + SceneLabel(scene) + d + Minutes(expireSeconds);
    FourPieces(a, mobile, b, code, c, SceneLabel(scene), d, Minutes(expireSeconds));
    ContainsExtend(s, mobile, "  \n");
    ContainsExtend(s, code, "  \n");
    ContainsExtend(s, SceneLabel(scene), "  \n");
    ContainsExtend(s, Minutes(expireSeconds), "  \n");
  }

  /**
   * VerificationNotifier.send_verification_code: a text message that mentions
   * nobody, carrying the phone, code, scene label and validity.
   */
  function SendVerificationCode(robot: Robot, expireSeconds: int, mobile: string, code: string, scene: string,
                                sig: Signature, response: Response): (d: Delivery)
    ensures d.payload.TextMessage? && d.payload.at == At([], false)
    ensures Mentions(d.payload.content, mobile, code, scene, expireSeconds)
    ensures (d.ok, d.message) == Classify(response)
  {
    TextContentMentions(mobile, code, scene, expireSeconds);
    SendText(robot, TextContent(mobile, code, scene, expireSeconds), None, false, sig, response)
  }

  /** VerificationNotifier.send_markdown_code: the same information as a markdown message. */
  function SendMarkdownCode(robot: Robot, expireSeconds: int, mobile: string, code: string, scene: string,
                            sig: Signature, response: Response): (d: Delivery)
    ensures d.payload.MarkdownMessage? && d.payload.title == MarkdownTitle && d.payload.at == At([], false)
    ensures Mentions(d.payload.text, mobile, code, scene, expireSeconds)
    ensures (d.ok, d.message) == Classify(response)
  {
    MarkdownContentMentions(mobile, code, scene, expireSeconds);
    SendMarkdown(robot, MarkdownTitle, MarkdownContent(mobile, code, scene, expireSeconds), None, false, sig, response)
  }
}
