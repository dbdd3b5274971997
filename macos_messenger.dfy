/**
 * The decision rules of the macOS Messages sender: recipient formatting,
 * escaping for the AppleScript string literal, the service choice, the
 * primary/alternative script fallback, the send cooldown, the test-message
 * fallback from iMessage to SMS and the services-list parse.
 *
 * Running `osascript` is not modelled: each script run is an abstract
 * `RunResult`, and the clock is the parameter `now`.
 */
module MacosMessenger {
  import opened Values
  import opened Strings

  // ---------------------------------------------------------------------
  // Recipient formatting
  // ---------------------------------------------------------------------

  /** The characters deleted before the phone-or-email test. */
  predicate Separator(c: char) {
    c == '+' || c == '-' || c == ' ' || c == '(' || c == ')'
  }

  /** The recipient after the chain of `replace` calls that deletes `+ - space ( )`. */
  function Stripped(recipient: string): (r: string)
    ensures forall x :: x in r <==> x in recipient && !Separator(x)
  {
    Replace(Replace(Replace(Replace(Replace(recipient, '+', []), '-', []), ' ', []), '(', []), ')', [])
  }

  /** `str.isdigit()`: not empty, and every character a digit. */
  predicate IsDigits(s: string) {
    s != [] && forall i :: 0 <= i < |s| ==> IsDigit(s[i])
  }

  /** The test that sends a recipient down the phone-number branch. */
  predicate LooksLikePhone(recipient: string) {
    IsDigits(Stripped(recipient))
  }

  predicate PhoneChar(c: char) {
    IsDigit(c) || c == '+'
  }

  /** The characters of `s` that are digits or `+`, in their order in `s`. */
  function PhoneChars(s: string): (r: string)
    ensures forall i :: 0 <= i < |r| ==> PhoneChar(r[i])
  {
    if s == [] then []
    else
      assert s == [s[0]] + s[1..];
      (if PhoneChar(s[0]) then [s[0]] else []) + PhoneChars(s[1..])
  }

  /**
   * Keeping phone characters is a filter: it works piece by piece, so the
   * kept characters stay in their original order ...
   */
  lemma {:induction false} PhoneCharsAppend(a: string, b: string)
    ensures PhoneChars(a + b) == PhoneChars(a) + PhoneChars(b)
  {
    if a == [] {
      assert a + b == b;
    } else {
      var head := if PhoneChar(a[0]) then [a[0]] else [];
      assert (a + b)[0] == a[0];
      assert (a + b)[1..] == a[1..] + b;
      PhoneCharsAppend(a[1..], b);
      calc {
        PhoneChars(a + b);
        head + PhoneChars(a[1..] + b);
        head + (PhoneChars(a[1..]) + PhoneChars(b));
        (head + PhoneChars(a[1..])) + PhoneChars(b);
        { assert PhoneChars(a) == head + PhoneChars(a[1..]); }
        PhoneChars(a) + PhoneChars(b);
      }
    }
  }

  /** The kept characters are exactly the digits and `+` characters of the recipient. */
  lemma {:induction false} PhoneCharsMembers(s: string)
    ensures forall x :: x in PhoneChars(s) <==> x in s && PhoneChar(x)
  {
    if s != [] {
      PhoneCharsMembers(s[1..]);
      assert s == [s[0]] + s[1..];
    }
  }

  /** ... and a single character is kept exactly when it is a digit or `+`. */
  lemma PhoneCharsSingle(c: char)
    ensures PhoneChars([c]) == if PhoneChar(c) then [c] else []
  {
    assert [c][1..] == [];
  }

  /** A string made only of digits and `+` is kept whole. */
  lemma {:induction false} PhoneCharsKeepsAll(s: string)
    requires forall i :: 0 <= i < |s| ==> PhoneChar(s[i])
    ensures PhoneChars(s) == s
  {
    if s != [] {
      PhoneCharsKeepsAll(s[1..]);
    }
  }

  /** The US prefix added to a kept phone string. */
  function PhonePrefix(kept: string): string {
    if |kept| == 10 then "+1"
    else if |kept| == 11 && kept[0] == '1' then "+"
    else ""
  }

  /** `_format_recipient`: a phone number is normalised, anything else passes through. */
  function FormatRecipient(recipient: string): (r: string)
    ensures !LooksLikePhone(recipient) ==> r == recipient
    ensures LooksLikePhone(recipient) ==> forall i :: 0 <= i < |r| ==> PhoneChar(r[i])
    ensures LooksLikePhone(recipient) ==>
              |PhoneChars(recipient)| <= |r| <= |PhoneChars(recipient)| + 2 &&
              r[|r| - |PhoneChars(recipient)|..] == PhoneChars(recipient)
  {
    if LooksLikePhone(recipient) then
      var phone := PhoneChars(recipient);
      PhonePrefix(phone) + phone
    else
      recipient
  }

  /**
   * The prefix rule of the phone branch, where `+` counts toward the length:
   * ten kept characters get `+1`, eleven starting with `1` get `+`, any other
   * length is returned as kept.
   */
  lemma PhonePrefixRule(recipient: string)
    requires LooksLikePhone(recipient)
    ensures var kept := PhoneChars(recipient);
      && (|kept| == 10 ==> FormatRecipient(recipient) == "+1" + kept)
      && (|kept| == 11 && kept[0] == '1' ==> FormatRecipient(recipient) == "+" + kept)
      && (|kept| != 10 && !(|kept| == 11 && kept[0] == '1') ==> FormatRecipient(recipient) == kept)
  {
  }

  /** A string of digits and `+` that holds a digit still looks like a phone number. */
  lemma PhoneStringLooksLikePhone(r: string, d: char)
    requires forall i :: 0 <= i < |r| ==> PhoneChar(r[i])
    requires IsDigit(d) && d in r
    ensures LooksLikePhone(r)
  {
    var st := Stripped(r);
    assert d in st;
    forall i | 0 <= i < |st|
      ensures IsDigit(st[i])
    {
      var x := st[i];
      assert x in st;
      var j :| 0 <= j < |r| && r[j] == x;
      assert PhoneChar(r[j]);
    }
  }

  /** A formatted phone number still takes the phone-number branch. */
  lemma FormattedLooksLikePhone(recipient: string)
    requires LooksLikePhone(recipient)
    ensures LooksLikePhone(FormatRecipient(recipient))
  {
    var kept := PhoneChars(recipient);
    var r := FormatRecipient(recipient);
    // a digit of the recipient survives into r
    var d := Stripped(recipient)[0];
    assert d in Stripped(recipient);
    PhoneCharsMembers(recipient);
    assert d in kept;
    assert d in r by {
      assert r[|r| - |kept|..] == kept;
    }
    PhoneStringLooksLikePhone(r, d);
  }

  /** Formatting an already formatted recipient changes nothing. */
  lemma FormatIdempotent(recipient: string)
    ensures FormatRecipient(FormatRecipient(recipient)) == FormatRecipient(recipient)
  {
    if LooksLikePhone(recipient) {
      var r := FormatRecipient(recipient);
      FormattedLooksLikePhone(recipient);
      PhoneCharsKeepsAll(r);
    }
  }

  // ---------------------------------------------------------------------
  // Escaping for the AppleScript string literal
  // ---------------------------------------------------------------------

  /** The source's escaping: quotes are escaped first, then every backslash is doubled. */
  function Escape(text: string): string {
    Replace(Replace(text, '"', ['\\', '"']), '\\', ['\\', '\\'])
  }

  /** What `Escape` makes of one character. */
  function EscapeChar(c: char): string {
    if c == '"' then ['\\', '\\', '"']
    else if c == '\\' then ['\\', '\\']
    else [c]
  }

  function EscapeEach(s: string): string {
    if s == [] then [] else EscapeChar(s[0]) + EscapeEach(s[1..])
  }

  /** Character by character: a quote becomes `\\"`, a backslash `\\`, the rest stay. */
  lemma {:induction false} EscapePerChar(text: string)
    ensures Escape(text) == EscapeEach(text)
  {
    if text != [] {
      var c, t := text[0], text[1..];
      var q := Replace([c], '"', ['\\', '"']);
      assert text == [c] + t;
      ReplaceAppend([c], t, '"', ['\\', '"']);
      ReplaceAppend(q, Replace(t, '"', ['\\', '"']), '\\', ['\\', '\\']);
      EscapePerChar(t);
      if c == '"' {
        assert q == ['\\', '"'];
        assert Replace(q, '\\', ['\\', '\\']) == ['\\', '\\'] + Replace(['"'], '\\', ['\\', '\\']);
      } else {
        assert q == [c];
      }
    }
  }

  lemma {:induction false} EscapeEachLength(text: string)
    ensures |EscapeEach(text)| == |text| + 2 * Count(text, '"') + Count(text, '\\')
  {
    if text != [] {
      EscapeEachLength(text[1..]);
    }
  }

  /** The escaped text grows by two per quote and by one per backslash. */
  lemma EscapeLength(text: string)
    ensures |Escape(text)| == |text| + 2 * Count(text, '"') + Count(text, '\\')
  {
    EscapePerChar(text);
    EscapeEachLength(text);
  }

  /**
   * How AppleScript reads the body of a string literal up to its closing
   * quote: `\\` stands for a backslash and `\"` for a quote. The result is
   * the text read and what follows the closing quote; `None` for an
   * unterminated literal or another escape (`\n`, `\t`, `\r` are not
   * modelled).
   */
  function ReadLiteral(t: string): Option<(string, string)> {
    if t == [] then None
    else if t[0] == '"' then Some(([], t[1..]))
    else if t[0] == '\\' then
      if |t| >= 2 && (t[1] == '\\' || t[1] == '"') then
        match ReadLiteral(t[2..])
        case Some(p) => Some(([t[1]] + p.0, p.1))
        case None => None
      else None
    else
      match ReadLiteral(t[1..])
      case Some(p) => Some(([t[0]] + p.0, p.1))
      case None => None
  }

  /**
   * The escaping as written does not survive the literal: a message made of
   * one quote is read back as a single backslash, and the quote that should
   * have closed the literal is left over after it.
   */
  lemma EscapeBreaksLiteral()
    ensures Escape(['"']) == ['\\', '\\', '"']
    ensures ReadLiteral(Escape(['"']) + ['"']) == Some((['\\'], ['"']))
  {
    EscapePerChar(['"']);
    assert EscapeEach(['"']) == ['\\', '\\', '"'] + EscapeEach([]);
    var t := ['\\', '\\', '"', '"'];
    assert Escape(['"']) + ['"'] == t;
    assert t[2..] == ['"', '"'];
    assert t[2..][1..] == ['"'];
    assert ReadLiteral(t[2..]) == Some(([], ['"']));
    assert ReadLiteral(t) == Some(([t[1]] + [], ['"']));
    assert [t[1]] + [] == ['\\'];
  }

  /** The escaping the literal needs: backslashes are doubled first, then quotes escaped. */
  function EscapeForAppleScript(text: string): string {
    Replace(Replace(text, '\\', ['\\', '\\']), '"', ['\\', '"'])
  }

  function EscapeCharForAppleScript(c: char): string {
    if c == '"' then ['\\', '"']
    else if c == '\\' then ['\\', '\\']
    else [c]
  }

  lemma {:induction false} EscapeForAppleScriptPerChar(text: string)
    ensures text != [] ==>
              EscapeForAppleScript(text) == EscapeCharForAppleScript(text[0]) + EscapeForAppleScript(text[1..])
  {
    if text != [] {
      var c, t := text[0], text[1..];
      var b := Replace([c], '\\', ['\\', '\\']);
      assert text == [c] + t;
      ReplaceAppend([c], t, '\\', ['\\', '\\']);
      ReplaceAppend(b, Replace(t, '\\', ['\\', '\\']), '"', ['\\', '"']);
      if c == '\\' {
        assert b == ['\\', '\\'];
        assert Replace(b, '"', ['\\', '"']) == ['\\'] + Replace(['\\'], '"', ['\\', '"']);
      } else {
        assert b == [c];
      }
    }
  }

  /** With the corrected order, AppleScript reads back exactly the original text. */
  lemma {:induction false} EscapeForAppleScriptRoundTrip(text: string, rest: string)
    ensures ReadLiteral(EscapeForAppleScript(text) + ['"'] + rest) == Some((text, rest))
  {
    if text == [] {
      assert EscapeForAppleScript(text) + ['"'] + rest == ['"'] + rest;
    } else {
      var c, t := text[0], text[1..];
      EscapeForAppleScriptPerChar(text);
      EscapeForAppleScriptRoundTrip(t, rest);
      var tail := EscapeForAppleScript(t) + ['"'] + rest;
      var whole := EscapeForAppleScript(text) + ['"'] + rest;
      assert whole == EscapeCharForAppleScript(c) + tail;
      if c == '"' || c == '\\' {
        assert whole[2..] == tail;
      } else {
        assert whole[1..] == tail;
      }
      assert text == [c] + t;
    }
  }

  // ---------------------------------------------------------------------
  // Sending
  // ---------------------------------------------------------------------

  datatype ServiceType = IMessage | Sms

  /** The service the script asks Messages for. */
  function ServiceOf(service: Json): (t: ServiceType)
    ensures t == IMessage <==> service == JStr("iMessage")
  {
    if service == JStr("iMessage") then IMessage else Sms
  }

  /** What one `subprocess.run(['osascript', ...])` call came to. */
  datatype RunResult =
    | Exited(code: int)  // the script ran and exited with this return code
    | TimedOut           // subprocess.TimeoutExpired
    | Crashed            // any other exception from subprocess.run

  /** The two AppleScript variants: send to the buddy, or make a new chat and send to it. */
  datatype Route = Direct | NewChat

  /**
   * One script that was run: its variant, the service, and the body of the
   * buddy's string literal (the formatted recipient, escaped).
   */
  datatype Script = Script(route: Route, service: ServiceType, buddy: string)

  /** The buddy literal written into a script for a recipient, with the escaping as written. */
  function BuddyLiteral(recipient: string): string {
    Escape(FormatRecipient(recipient))
  }

  /** How the environment answers each script variant. */
  datatype SendEnv = SendEnv(direct: RunResult, newChat: RunResult)

  /** The result of a send and the scripts it ran, in order. */
  datatype Sent = Sent(ok: bool, scripts: seq<Script>)

  /** `_send_message_alternative`: every failure, including a timeout, is `False`. */
  function SendAlternative(recipient: string, service: Json, outcome: RunResult): (r: Sent)
    ensures r.scripts == [Script(NewChat, ServiceOf(service), BuddyLiteral(recipient))]
    ensures r.ok <==> outcome == Exited(0)
  {
    var script := Script(NewChat, ServiceOf(service), BuddyLiteral(recipient));
    match outcome
    case Exited(code) => Sent(code == 0, [script])
    case _ => Sent(false, [script])
  }

  /**
   * `send_message`. A recipient that is not a string makes the formatting
   * raise, which is caught and reported as `False`.
   */
  function SendMessage(recipient: Json, service: Json, env: SendEnv): (r: Sent)
    ensures !recipient.JStr? ==> r == Sent(false, [])
    ensures recipient.JStr? ==>
      1 <= |r.scripts| <= 2 &&
      forall i :: 0 <= i < |r.scripts| ==>
        r.scripts[i] == Script(if i == 0 then Direct else NewChat, ServiceOf(service), BuddyLiteral(recipient.s))
    ensures |r.scripts| == 2 <==> recipient.JStr? && env.direct.Exited? && env.direct.code != 0
    ensures r.ok <==>
      recipient.JStr? &&
      (env.direct == Exited(0) || (env.direct.Exited? && env.direct.code != 0 && env.newChat == Exited(0)))
  {
    match recipient
    case JStr(s) =>
      var script := Script(Direct, ServiceOf(service), BuddyLiteral(s));
      (match env.direct
       case Exited(code) =>
         if code == 0 then Sent(true, [script])
         else
           var alt := SendAlternative(s, service, env.newChat);
           Sent(alt.ok, [script] + alt.scripts)
       case TimedOut => Sent(false, [script])
       case Crashed => Sent(false, [script]))
    case _ => Sent(false, [])
  }

  /** Text without quotes or backslashes is left alone by both escapings. */
  lemma EscapingsAgreeOnPlainText(text: string)
    requires '"' !in text && '\\' !in text
    ensures Escape(text) == text
    ensures EscapeForAppleScript(text) == text
  {
    ReplaceAbsent(text, '"', ['\\', '"']);
    ReplaceAbsent(text, '\\', ['\\', '\\']);
  }

  /** A formatted phone number holds neither a quote nor a backslash, so escaping leaves it as it is. */
  lemma PhoneBuddyUnescaped(recipient: string)
    requires LooksLikePhone(recipient)
    ensures BuddyLiteral(recipient) == FormatRecipient(recipient)
  {
    var r := FormatRecipient(recipient);
    assert '"' !in r && '\\' !in r by {
      forall i | 0 <= i < |r|
        ensures r[i] != '"' && r[i] != '\\'
      {
        assert PhoneChar(r[i]);
      }
    }
    EscapingsAgreeOnPlainText(r);
  }

  /**
   * When the formatted recipient holds no quote and no backslash (every
   * phone number, most e-mail addresses), every script a send runs names it
   * as its buddy once AppleScript reads the literal.
   */
  lemma ScriptsNameRecipient(recipient: string, service: Json, env: SendEnv, i: nat)
    requires '"' !in FormatRecipient(recipient) && '\\' !in FormatRecipient(recipient)
    requires i < |SendMessage(JStr(recipient), service, env).scripts|
    ensures ReadLiteral(SendMessage(JStr(recipient), service, env).scripts[i].buddy + ['"']) ==
      Some((FormatRecipient(recipient), []))
  {
    var r := FormatRecipient(recipient);
    EscapingsAgreeOnPlainText(r);
    EscapeForAppleScriptRoundTrip(r, []);
    assert EscapeForAppleScript(r) + ['"'] + [] == EscapeForAppleScript(r) + ['"'];
  }

  /** A recipient holding a character that is neither a digit nor a separator is passed through. */
  lemma NotPhonePassesThrough(recipient: string, c: char)
    requires c in recipient && !IsDigit(c) && !Separator(c)
    ensures FormatRecipient(recipient) == recipient
  {
    assert c in Stripped(recipient);
  }

  /**
   * With the escaping as written, an e-mail address holding a quote is
   * misread: for `a"b` the buddy literal reads as `a\`, and `b"` is left
   * over after the closing quote.
   */
  lemma QuotedBuddyMisread()
    ensures ReadLiteral(BuddyLiteral(['a', '"', 'b']) + ['"']) == Some((['a', '\\'], ['b', '"']))
  {
    QuotedBuddyLiteral();
    QuotedLiteralRead();
    assert BuddyLiteral(['a', '"', 'b']) + ['"'] == ['a', '\\', '\\', '"', 'b', '"'];
  }

  /** An e-mail with a quote is passed through unformatted, then escaped. */
  lemma QuotedBuddyLiteral()
    ensures BuddyLiteral(['a', '"', 'b']) == ['a', '\\', '\\', '"', 'b']
  {
    var e := ['a', '"', 'b'];
    assert e[0] == 'a';
    NotPhonePassesThrough(e, 'a');
    QuotedEscape();
  }

  /** The escaping as written turns the quote of `a"b` into `\\"`. */
  lemma QuotedEscape()
    ensures Escape(['a', '"', 'b']) == ['a', '\\', '\\', '"', 'b']
  {
    var e := ['a', '"', 'b'];
    EscapePerChar(e);
    EscapePerChar(e[1..]);
    EscapePerChar(e[1..][1..]);
    assert e[1..][1..][1..] == [];
  }

  /** Reading `a\\"b"` stops at the escaped-looking quote. */
  lemma QuotedLiteralRead()
    ensures ReadLiteral(['a', '\\', '\\', '"', 'b', '"']) == Some((['a', '\\'], ['b', '"']))
  {
    var t := ['a', '\\', '\\', '"', 'b', '"'];
    var u := t[1..];
    assert u == ['\\', '\\', '"', 'b', '"'];
    assert u[2..] == ['"', 'b', '"'];
    assert ReadLiteral(u[2..]) == Some(([], ['b', '"']));
    assert ReadLiteral(u) == Some(([u[1]] + [], ['b', '"']));
    assert [u[1]] + [] == ['\\'];
    assert ReadLiteral(t) == Some(([t[0]] + ['\\'], ['b', '"']));
    assert [t[0]] + ['\\'] == ['a', '\\'];
  }

  /** For a phone number, every script names it as its buddy. */
  lemma PhoneScriptsNameRecipient(recipient: string, service: Json, env: SendEnv, i: nat)
    requires LooksLikePhone(recipient)
    requires i < |SendMessage(JStr(recipient), service, env).scripts|
    ensures ReadLiteral(SendMessage(JStr(recipient), service, env).scripts[i].buddy + ['"']) ==
      Some((FormatRecipient(recipient), []))
  {
    var r := FormatRecipient(recipient);
    assert '"' !in r && '\\' !in r by {
      forall i | 0 <= i < |r|
        ensures r[i] != '"' && r[i] != '\\'
      {
        assert PhoneChar(r[i]);
      }
    }
    ScriptsNameRecipient(recipient, service, env, i);
  }

  /** `get_name of every service` as the subprocess answered it. */
  datatype Query = Ran(code: int, stdout: string) | QueryRaised

  const FallbackServices: seq<string> := ["iMessage", "SMS"]

  /** Stripping pieces that lack a character leaves them without it. */
  lemma StripKeepsOut(pieces: seq<string>, c: char)
    requires forall i :: 0 <= i < |pieces| ==> c !in pieces[i]
    ensures forall i :: 0 <= i < |pieces| ==> c !in Strip(pieces[i])
  {
  }

  lemma FallbackStripped()
    ensures forall i :: 0 <= i < |FallbackServices| ==> IsStripped(FallbackServices[i])
  {
    var m, n := FallbackServices[0], FallbackServices[1];
    assert m[0] == 'i' && m[|m| - 1] == 'e';
    assert n[0] == 'S' && n[|n| - 1] == 'S';
    assert !IsSpace('i') && !IsSpace('e') && !IsSpace('S');
  }

  /** `get_available_services`: the comma-separated answer, or the fallback list. */
  function AvailableServices(q: Query): (r: seq<string>)
    ensures |r| > 0
    ensures forall i :: 0 <= i < |r| ==> IsStripped(r[i]) && ',' !in r[i]
    ensures q.Ran? && q.code == 0 && Strip(q.stdout) != [] ==>
      |r| == Count(Strip(q.stdout), ',') + 1
    ensures !(q.Ran? && q.code == 0 && Strip(q.stdout) != []) ==> r == FallbackServices
  {
    if q.Ran? && q.code == 0 && Strip(q.stdout) != [] then
      var pieces := Split(Strip(q.stdout), ',');
      StripKeepsOut(pieces, ',');
      seq(|pieces|, i requires 0 <= i < |pieces| => Strip(pieces[i]))
    else
      FallbackStripped();
      FallbackServices
  }

  /**
   * Each service name is one comma-separated piece of the answer with its
   * surrounding whitespace removed, and the pieces joined back give the
   * answer.
   */
  lemma ServicesArePieces(q: Query)
    requires q.Ran? && q.code == 0 && Strip(q.stdout) != []
    ensures var pieces := Split(Strip(q.stdout), ',');
      && Join(pieces, ',') == Strip(q.stdout)
      && |AvailableServices(q)| == |pieces|
      && forall i :: 0 <= i < |pieces| ==> AvailableServices(q)[i] == Strip(pieces[i])
  {
    SplitJoin(Strip(q.stdout), ',');
  }

  /** `check_messages_permissions`: the services list is never empty, so this is always `True`. */
  function CheckMessagesPermissions(q: Query): (r: bool)
    ensures r
  {
    |AvailableServices(q)| > 0
  }

  // ---------------------------------------------------------------------
  // The messenger object
  // ---------------------------------------------------------------------

  class Messenger {
    var lastMessageTime: real
    var messageCooldown: real
    /** Every script this messenger has run through `osascript`, in order. */
    ghost var log: seq<Script>

    constructor ()
      ensures lastMessageTime == 0.0 && messageCooldown == 60.0
      ensures log == []
    {
      lastMessageTime := 0.0;
      messageCooldown := 60.0;
      log := [];
    }

    /**
     * `send_notification_with_cooldown`: within the cooldown nothing is sent
     * and `False` is returned; otherwise the send decides the result, and
     * the time of the last message moves to `now` only when it succeeded.
     */
    method SendNotificationWithCooldown(recipient: Json, service: Json, now: real, env: SendEnv)
      returns (ok: bool, sent: Sent)
      modifies this`lastMessageTime, this`log
      ensures now - old(lastMessageTime) < messageCooldown ==> !ok && sent == Sent(false, [])
      ensures now - old(lastMessageTime) >= messageCooldown ==>
        sent == SendMessage(recipient, service, env) && ok == sent.ok
      ensures lastMessageTime == if ok then now else old(lastMessageTime)
      ensures log == old(log) + sent.scripts
    {
      if now - lastMessageTime < messageCooldown {
        return false, Sent(false, []);
      }
      sent := SendMessage(recipient, service, env);
      log := log + sent.scripts;
      ok := sent.ok;
      if ok {
        lastMessageTime := now;
      }
    }

    /**
     * `test_messaging`: iMessage first, and SMS only when iMessage failed.
     * The scripts run are those of the iMessage attempt followed, if it
     * failed, by those of the SMS attempt.
     */
    method TestMessaging(recipient: string, viaIMessage: SendEnv, viaSms: SendEnv)
      returns (success: bool, scripts: seq<Script>)
      modifies this`log
      ensures log == old(log) + scripts
      ensures var first := SendMessage(JStr(recipient), JStr("iMessage"), viaIMessage);
        var second := SendMessage(JStr(recipient), JStr("SMS"), viaSms);
        && success == (first.ok || second.ok)
        && scripts == first.scripts + (if first.ok then [] else second.scripts)
      ensures forall i :: 0 <= i < |scripts| && scripts[i].service == Sms ==>
        !SendMessage(JStr(recipient), JStr("iMessage"), viaIMessage).ok
    {
      var sent := SendMessage(JStr(recipient), JStr("iMessage"), viaIMessage);
      success := sent.ok;
      scripts := sent.scripts;
      if !success {
        sent := SendMessage(JStr(recipient), JStr("SMS"), viaSms);
        success := sent.ok;
        scripts := scripts + sent.scripts;
      }
      log := log + scripts;
    }
  }
}
