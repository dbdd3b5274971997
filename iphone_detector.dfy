/**
 * The decision logic of the webcam detector: loading the configuration over
 * its defaults, the detection-area test, combining the three heuristic
 * detectors' answers, choosing the recipient, and the per-frame counter and
 * notification cooldown of the main loop.
 *
 * The camera, the image heuristics and the drawing are not modelled: each
 * frame arrives as the three detectors' (found, confidence, box) answers,
 * the time at which it was handled, the messaging environment and the key
 * pressed.
 */
module IphoneDetector {
  import opened Values
  import opened Strings
  import opened MacosMessenger

  // ---------------------------------------------------------------------
  // Configuration
  // ---------------------------------------------------------------------

  /** The keys of the built-in configuration, in the order the merge visits them. */
  const DefaultKeys: seq<string> := [
    "camera_index", "detection_confidence", "notification_cooldown", "recipient_phone_number",
    "recipient_email", "message_service", "detection_area"]

  /** The built-in configuration. */
  function Defaults(): map<string, Json> {
    map[
      "camera_index" := JInt(0),
      "detection_confidence" := JFloat(0.5),
      "notification_cooldown" := JInt(60),
      "recipient_phone_number" := JStr(""),
      "recipient_email" := JStr(""),
      "message_service" := JStr("iMessage"),
      "detection_area" := JObject(map[
        "enabled" := JBool(false), "x" := JInt(0), "y" := JInt(0),
        "width" := JInt(640), "height" := JInt(480)])]
  }

  lemma DefaultKeysAgree()
    ensures forall k :: k in Defaults() <==> k in DefaultKeys
  {
  }

  /**
   * The one-level merge of the file's dict over the defaults: every default
   * key is present, a key the file has keeps the file's value, and keys only
   * the file has are kept. A nested dict from the file is not filled in.
   */
  function Merge(file: map<string, Json>, defaults: map<string, Json>): (m: map<string, Json>)
    ensures m.Keys == file.Keys + defaults.Keys
    ensures forall k :: k in file ==> m[k] == file[k]
    ensures forall k :: k in defaults && k !in file ==> m[k] == defaults[k]
  {
    map k | k in file.Keys + defaults.Keys :: if k in file then file[k] else defaults[k]
  }

  /**
   * What `load_config` returns. A missing or unreadable file gives the
   * defaults. A dict is merged over the defaults. A list or a string is
   * returned unchanged when every default key is an element (for a list) or
   * a substring (for a string) of it, because then no assignment is tried;
   * otherwise the assignment raises and the defaults are returned. Any other
   * document makes the `in` test raise, which also gives the defaults.
   */
  function LoadedConfig(file: ConfigFile): (c: Json)
    ensures file.NoFile? || file.Unreadable? ==> c == JObject(Defaults())
    ensures c.JObject? ==> Defaults().Keys <= c.fields.Keys
    ensures file.Parsed? && file.doc.JObject? ==> c == JObject(Merge(file.doc.fields, Defaults()))
  {
    match file
    case Parsed(JObject(m)) => JObject(Merge(m, Defaults()))
    case Parsed(JArray(xs)) =>
      if forall i :: 0 <= i < |DefaultKeys| ==> JStr(DefaultKeys[i]) in xs then JArray(xs)
      else JObject(Defaults())
    case Parsed(JStr(s)) =>
      if forall i :: 0 <= i < |DefaultKeys| ==> IsSubstring(DefaultKeys[i], s) then JStr(s)
      else JObject(Defaults())
    case _ => JObject(Defaults())
  }

  /** `m` is `d` with the first `i` default keys filled in where `d` lacks them. */
  ghost predicate FilledUpTo(d: map<string, Json>, m: map<string, Json>, i: nat)
    requires i <= |DefaultKeys|
  {
    && (forall k :: k in m <==> k in d || k in DefaultKeys[..i])
    && (forall k :: k in m ==> m[k] == if k in d then d[k] else Defaults()[k])
  }

  /** Filling in the next default key, if missing, keeps the loop's invariant. */
  lemma FilledStep(d: map<string, Json>, m: map<string, Json>, i: nat)
    requires i < |DefaultKeys| && FilledUpTo(d, m, i)
    ensures var key := DefaultKeys[i];
            FilledUpTo(d, if key in m then m else m[key := Defaults()[key]], i + 1)
  {
    var key := DefaultKeys[i];
    assert DefaultKeys[..i + 1] == DefaultKeys[..i] + [key];
    DefaultKeysAgree();
  }

  /** Once every default key is filled in, the result is the merge over the defaults. */
  lemma FilledAll(d: map<string, Json>, m: map<string, Json>)
    requires FilledUpTo(d, m, |DefaultKeys|)
    ensures m == Merge(d, Defaults())
  {
    assert DefaultKeys[..|DefaultKeys|] == DefaultKeys;
    DefaultKeysAgree();
  }

  /** `load_config`: the loop over the default items that fills in missing keys. */
  method LoadConfig(file: ConfigFile) returns (config: Json)
    ensures config == LoadedConfig(file)
  {
    if !file.Parsed? {
      return JObject(Defaults());
    }
    var doc := file.doc;
    DefaultKeysAgree();
    config := doc;
    var i := 0;
    while i < |DefaultKeys|
      invariant 0 <= i <= |DefaultKeys|
      invariant doc.JObject? <==> config.JObject?
      invariant !doc.JObject? ==> config == doc
      invariant doc.JObject? ==> FilledUpTo(doc.fields, config.fields, i)
      invariant doc.JArray? ==> forall j :: 0 <= j < i ==> JStr(DefaultKeys[j]) in doc.items
      invariant doc.JStr? ==> forall j :: 0 <= j < i ==> IsSubstring(DefaultKeys[j], doc.s)
      invariant !(doc.JObject? || doc.JArray? || doc.JStr?) ==> i == 0
    {
      var key := DefaultKeys[i];
      match config {
        case JObject(m) =>
          FilledStep(doc.fields, m, i);
          if key !in m {
            config := JObject(m[key := Defaults()[key]]);
          }
        case JArray(xs) =>
          if JStr(key) !in xs {
            // config[key] = value on a list raises TypeError
            return JObject(Defaults());
          }
        case JStr(s) =>
          if !IsSubstring(key, s) {
            // config[key] = value on a str raises TypeError
            return JObject(Defaults());
          }
        case _ =>
          // `key not in config` raises TypeError
          return JObject(Defaults());
      }
      i := i + 1;
    }
    if doc.JObject? {
      FilledAll(doc.fields, config.fields);
    }
  }

  // ---------------------------------------------------------------------
  // Detection area
  // ---------------------------------------------------------------------

  /** `v[key]` on a dict; any other value, or a missing key, raises. */
  function Lookup(v: Json, key: string): Try<Json> {
    if v.JObject? && key in v.fields then Ok(v.fields[key]) else Raised
  }

  /** `a + b` followed by a comparison with an int: only numbers get through. */
  function NumericSum(a: Json, b: Json): Try<real> {
    var x :- AsNumber(a);
    var y :- AsNumber(b);
    Ok(x + y)
  }

  /** `area[low] <= p <= area[low] + area[span]`, evaluated left to right with short-circuit. */
  function Within(area: Json, low: string, span: string, p: int): Try<bool> {
    var lowValue :- Lookup(area, low);
    var lo :- AsNumber(lowValue);
    if !(lo <= p as real) then Ok(false)
    else
      var spanValue :- Lookup(area, span);
      var hi :- NumericSum(lowValue, spanValue);
      Ok(p as real <= hi)
  }

  /** The configured area, with all four bounds numeric. */
  predicate NumericArea(area: Json) {
    area.JObject? &&
    forall k :: k in ["x", "y", "width", "height"] ==> k in area.fields && AsNumber(area.fields[k]).Ok?
  }

  function Bound(area: Json, k: string): real
    requires NumericArea(area) && k in ["x", "y", "width", "height"]
  {
    AsNumber(area.fields[k]).value
  }

  /** `config['detection_area']['enabled']`. */
  function AreaSwitch(config: map<string, Json>): Try<Json> {
    if "detection_area" in config then Lookup(config["detection_area"], "enabled") else Raised
  }

  /**
   * `is_in_detection_area`: true whenever the area is switched off; when it
   * is on, true exactly when the top-left corner lies in the closed
   * rectangle. A missing area or `enabled` key raises.
   */
  function IsInDetectionArea(config: map<string, Json>, x: int, y: int, w: int, h: int): (r: Try<bool>)
    ensures AreaSwitch(config).Raised? ==> r == Raised
    ensures AreaSwitch(config).Ok? && !Truthy(AreaSwitch(config).value) ==> r == Ok(true)
    ensures AreaSwitch(config).Ok? && Truthy(AreaSwitch(config).value) && NumericArea(config["detection_area"]) ==>
      var area := config["detection_area"];
      r == Ok(Bound(area, "x") <= x as real <= Bound(area, "x") + Bound(area, "width") &&
              Bound(area, "y") <= y as real <= Bound(area, "y") + Bound(area, "height"))
  {
    var enabled :- AreaSwitch(config);
    if !Truthy(enabled) then Ok(true)
    else
      var area := config["detection_area"];
      var inX :- Within(area, "x", "width", x);
      if !inX then Ok(false)
      else Within(area, "y", "height", y)
  }

  /** The box's width and height never affect the area test. */
  lemma AreaIgnoresSize(config: map<string, Json>, x: int, y: int, w: int, h: int, w': int, h': int)
    ensures IsInDetectionArea(config, x, y, w, h) == IsInDetectionArea(config, x, y, w', h')
  {
  }

  // ---------------------------------------------------------------------
  // Combining the three detectors
  // ---------------------------------------------------------------------

  datatype Box = Box(x: int, y: int, w: int, h: int)

  /** One heuristic detector's answer: found, confidence, bounding box. */
  datatype Candidate = Candidate(found: bool, confidence: real, box: Box)

  datatype Detection = Detection(detected: bool, confidence: real, box: Box)

  const NoDetection := Detection(false, 0.0, Box(0, 0, 0, 0))

  /** `config['detection_confidence']` as it takes part in a comparison. */
  function Threshold(config: map<string, Json>): Try<real> {
    if "detection_confidence" in config then AsNumber(config["detection_confidence"]) else Raised
  }

  predicate AnyFound(cands: seq<Candidate>) {
    exists i :: 0 <= i < |cands| && cands[i].found
  }

  /** A detector's answer counts when it found something strictly above the threshold. */
  predicate Contributes(c: Candidate, t: real) {
    c.found && c.confidence > t
  }

  /** The `detections` list: the (confidence, box) of each contributing answer, in order. */
  function Contributions(cands: seq<Candidate>, t: real): seq<(real, Box)> {
    if cands == [] then []
    else
      var last := cands[|cands| - 1];
      Contributions(cands[..|cands| - 1], t) + (if Contributes(last, t) then [(last.confidence, last.box)] else [])
  }

  /** Where each entry of `Contributions` came from. */
  ghost function Origins(cands: seq<Candidate>, t: real): (o: seq<nat>)
    ensures |o| == |Contributions(cands, t)|
    ensures forall m :: 0 <= m < |o| ==>
      o[m] < |cands| && Contributes(cands[o[m]], t) &&
      Contributions(cands, t)[m] == (cands[o[m]].confidence, cands[o[m]].box)
    ensures forall m, n :: 0 <= m < n < |o| ==> o[m] < o[n]
  {
    if cands == [] then []
    else
      var n := |cands| - 1;
      var init := cands[..n];
      var o := Origins(init, t);
      assert forall m :: 0 <= m < |o| ==> init[o[m]] == cands[o[m]];
      assert Contributions(cands, t) ==
        Contributions(init, t) + (if Contributes(cands[n], t) then [(cands[n].confidence, cands[n].box)] else []);
      if Contributes(cands[n], t) then o + [n] else o
  }

  /** Every contributing answer has an entry in `Contributions`. */
  lemma {:induction false} OriginsComplete(cands: seq<Candidate>, t: real, i: nat)
    requires i < |cands| && Contributes(cands[i], t)
    ensures i in Origins(cands, t)
  {
    var n := |cands| - 1;
    if i < n {
      var init := cands[..n];
      assert init[i] == cands[i];
      OriginsComplete(init, t, i);
    }
  }

  /** Python's `max(..., key=confidence)`: the first entry of highest confidence. */
  function BestIndex(ds: seq<(real, Box)>): (k: nat)
    requires |ds| > 0
    ensures k < |ds|
    ensures forall j :: 0 <= j < |ds| ==> ds[j].0 <= ds[k].0
    ensures forall j :: 0 <= j < k ==> ds[j].0 < ds[k].0
  {
    if |ds| == 1 then 0
    else
      var k := BestIndex(ds[..|ds| - 1]);
      if ds[|ds| - 1].0 > ds[k].0 then |ds| - 1 else k
  }

  /**
   * What `detect_iphone` returns. The threshold is read only for an answer
   * that found something, so a missing or non-numeric threshold raises only
   * then.
   */
  function Detect(config: map<string, Json>, cands: seq<Candidate>): Try<Detection> {
    if !AnyFound(cands) then Ok(NoDetection)
    else
      var t :- Threshold(config);
      var ds := Contributions(cands, t);
      if ds == [] then Ok(NoDetection)
      else
        var k := BestIndex(ds);
        Ok(Detection(true, ds[k].0, ds[k].1))
  }

  /** The position in `Contributions` of a contributing answer. */
  lemma OriginIndex(cands: seq<Candidate>, t: real, j: nat) returns (m: nat)
    requires j < |cands| && Contributes(cands[j], t)
    ensures m < |Origins(cands, t)| && Origins(cands, t)[m] == j
  {
    OriginsComplete(cands, t, j);
    m :| 0 <= m < |Origins(cands, t)| && Origins(cands, t)[m] == j;
  }

  /**
   * The best entry of the contributions is the answer `i` of a contributing
   * detector; no contributing answer has a higher confidence and every
   * earlier one has a lower confidence.
   */
  lemma BestContribution(cands: seq<Candidate>, t: real) returns (i: nat)
    requires Contributions(cands, t) != []
    ensures i < |cands| && Contributes(cands[i], t)
    ensures Contributions(cands, t)[BestIndex(Contributions(cands, t))] == (cands[i].confidence, cands[i].box)
    ensures forall j :: 0 <= j < |cands| && Contributes(cands[j], t) ==> cands[j].confidence <= cands[i].confidence
    ensures forall j :: 0 <= j < i && Contributes(cands[j], t) ==> cands[j].confidence < cands[i].confidence
  {
    var ds := Contributions(cands, t);
    var o := Origins(cands, t);
    var k := BestIndex(ds);
    i := o[k];
    forall j | 0 <= j < |cands| && Contributes(cands[j], t)
      ensures cands[j].confidence <= cands[i].confidence
      ensures j < i ==> cands[j].confidence < cands[i].confidence
    {
      var m := OriginIndex(cands, t, j);
      assert ds[m].0 == cands[j].confidence;
      if j < i {
        assert o[m] < o[k];
        assert m < k;
      }
    }
  }

  /** Nothing contributes exactly when the contributions list is empty. */
  lemma NoContribution(cands: seq<Candidate>, t: real)
    ensures Contributions(cands, t) == [] <==> forall i :: 0 <= i < |cands| ==> !Contributes(cands[i], t)
  {
    var o := Origins(cands, t);
    if Contributions(cands, t) != [] {
      assert Contributes(cands[o[0]], t);
    }
  }

  /** `detect_iphone` raises exactly when some detector found something and the threshold is unusable. */
  lemma DetectRaises(config: map<string, Json>, cands: seq<Candidate>)
    ensures Detect(config, cands).Raised? <==> AnyFound(cands) && Threshold(config).Raised?
  {
  }

  /**
   * The combination rule: when some answer contributes, the result is the
   * contributing answer of largest confidence, the first one on ties;
   * otherwise it is `(False, 0.0, (0, 0, 0, 0))`.
   */
  lemma DetectPicksBest(config: map<string, Json>, cands: seq<Candidate>)
    requires Threshold(config).Ok?
    ensures var t := Threshold(config).value;
      var r := Detect(config, cands);
      && r.Ok?
      && (r.value.detected <==> exists i :: 0 <= i < |cands| && Contributes(cands[i], t))
      && (!r.value.detected ==> r.value == NoDetection)
      && (r.value.detected ==>
            exists i :: 0 <= i < |cands| && Contributes(cands[i], t) &&
              r.value.confidence == cands[i].confidence && r.value.box == cands[i].box &&
              (forall j :: 0 <= j < |cands| && Contributes(cands[j], t) ==> cands[j].confidence <= r.value.confidence) &&
              (forall j :: 0 <= j < i && Contributes(cands[j], t) ==> cands[j].confidence < r.value.confidence))
  {
    var t := Threshold(config).value;
    NoContribution(cands, t);
    if Contributions(cands, t) != [] {
      var i := BestContribution(cands, t);
      assert AnyFound(cands) by {
        assert cands[i].found;
      }
    }
  }

  /**
   * `detect_iphone` after the three heuristics have answered: each answer
   * that found something is compared with the threshold (reading it, which
   * may raise), a contributing answer is appended to `detections`, and the
   * best entry is taken.
   */
  method DetectIphone(config: map<string, Json>, template: Candidate, color: Candidate, shape: Candidate)
    returns (r: Try<Detection>)
    ensures r == Detect(config, [template, color, shape])
  {
    var cands := [template, color, shape];
    assert cands[..1] == [template] && cands[..2] == [template, color] && cands[..3] == cands;
    assert [template][..0] == [];
    ghost var t := if Threshold(config).Ok? then Threshold(config).value else 0.0;
    var detections: seq<(real, Box)> := [];
    if template.found {
      assert AnyFound(cands) by {
        assert cands[0].found;
      }
      var threshold :- Threshold(config);
      if template.confidence > threshold {
        detections := detections + [(template.confidence, template.box)];
      }
    }
    assert detections == Contributions(cands[..1], t);
    if color.found {
      assert AnyFound(cands) by {
        assert cands[1].found;
      }
      var threshold :- Threshold(config);
      if color.confidence > threshold {
        detections := detections + [(color.confidence, color.box)];
      }
    }
    assert detections == Contributions(cands[..2], t);
    if shape.found {
      assert AnyFound(cands) by {
        assert cands[2].found;
      }
      var threshold :- Threshold(config);
      if shape.confidence > threshold {
        detections := detections + [(shape.confidence, shape.box)];
      }
    }
    assert detections == Contributions(cands, t);
    if detections == [] {
      return Ok(NoDetection);
    }
    NoContribution(cands, t);
    ghost var w :| 0 <= w < |cands| && Contributes(cands[w], t);
    assert AnyFound(cands) by {
      assert cands[w].found;
    }
    var best := BestIndex(detections);
    r := Ok(Detection(true, detections[best].0, detections[best].1));
  }

  // ---------------------------------------------------------------------
  // Notification
  // ---------------------------------------------------------------------

  /** `config.get('recipient_phone_number') or config.get('recipient_email')`. */
  function RecipientOf(config: map<string, Json>): Json {
    var phone := GetOr(config, "recipient_phone_number", JNull);
    if Truthy(phone) then phone else GetOr(config, "recipient_email", JNull)
  }

  /**
   * The recipient is the phone number when that is truthy and the e-mail
   * value otherwise, so it is truthy exactly when one of the two is.
   */
  lemma RecipientChoice(config: map<string, Json>)
    ensures Truthy(RecipientOf(config)) <==>
      Truthy(GetOr(config, "recipient_phone_number", JNull)) || Truthy(GetOr(config, "recipient_email", JNull))
    ensures Truthy(GetOr(config, "recipient_phone_number", JNull)) ==> RecipientOf(config) == config["recipient_phone_number"]
    ensures !Truthy(GetOr(config, "recipient_phone_number", JNull)) ==>
      RecipientOf(config) == GetOr(config, "recipient_email", JNull)
  {
    var phone := GetOr(config, "recipient_phone_number", JNull);
    if Truthy(phone) {
      assert "recipient_phone_number" in config;
    }
  }

  /** `config.get('message_service', 'iMessage')`. */
  function ServiceSetting(config: map<string, Json>): Json {
    GetOr(config, "message_service", JStr("iMessage"))
  }

  /** `config.get('notification_cooldown', 60)`, the messenger's cooldown. */
  function CooldownSetting(config: map<string, Json>): Try<real> {
    AsNumber(GetOr(config, "notification_cooldown", JInt(60)))
  }

  /**
   * The frame loop's per-frame input: the answers of the template, colour and
   * shape heuristics, the time, the messaging environment and the key.
   */
  datatype Frame = Frame(template: Candidate, color: Candidate, shape: Candidate, now: real, env: SendEnv, key: int)
  {
    function Answers(): seq<Candidate> {
      [template, color, shape]
    }
  }

  /** `cv2.waitKey(1) & 0xFF == ord('q')`. */
  predicate IsQuit(key: int) {
    key % 256 == 113
  }

  /** The number of frames whose detection succeeded and found a phone. */
  function DetectedFrames(config: map<string, Json>, frames: seq<Frame>): nat {
    if frames == [] then 0
    else
      var d := Detect(config, frames[|frames| - 1].Answers());
      DetectedFrames(config, frames[..|frames| - 1]) + (if d.Ok? && d.value.detected then 1 else 0)
  }

  /** Notification times, each more than `cooldown` after the previous one, the first after `start`. */
  predicate Spaced(times: seq<real>, start: real, cooldown: real) {
    && (times != [] ==> times[0] - start > cooldown)
    && forall i :: 0 <= i < |times| - 1 ==> times[i + 1] - times[i] > cooldown
  }

  /** The time of the last notification: the last of `times`, or `start` when there is none. */
  function LastTime(times: seq<real>, start: real): real {
    if times == [] then start else times[|times| - 1]
  }

  /** A notification more than `cooldown` after the last one keeps the times spaced. */
  lemma SpacedAppend(times: seq<real>, start: real, cooldown: real, t: real)
    requires Spaced(times, start, cooldown)
    requires t - LastTime(times, start) > cooldown
    ensures Spaced(times + [t], start, cooldown)
    ensures LastTime(times + [t], start) == t
  {
    var ts := times + [t];
    forall i | 0 <= i < |ts| - 1
      ensures ts[i + 1] - ts[i] > cooldown
    {
      if i + 1 < |times| {
        assert ts[i + 1] - ts[i] == times[i + 1] - times[i];
      }
    }
  }

  /**
   * The rule by which one handled frame sends a notification: a phone was
   * detected, more than `cooldown` has passed since the last notification, a
   * recipient is set, the messenger's own cooldown has passed since its last
   * message, and the send succeeds.
   */
  predicate Notifies(config: map<string, Json>, cooldown: real, messageCooldown: real, det: Detection,
                     now: real, env: SendEnv, lastNotification: real, lastMessage: real)
  {
    && det.detected
    && now - lastNotification > cooldown
    && Truthy(RecipientOf(config))
    && now - lastMessage >= messageCooldown
    && SendMessage(RecipientOf(config), ServiceSetting(config), env).ok
  }

  /**
   * What one handled frame sends: the messenger's send, exactly when a phone
   * was detected, the loop's cooldown and the messenger's cooldown have
   * passed and a recipient is set; no script at all otherwise.
   */
  function FrameSend(config: map<string, Json>, cooldown: real, messageCooldown: real, det: Detection,
                     now: real, env: SendEnv, lastNotification: real, lastMessage: real): (sent: Sent)
    ensures sent.ok <==> Notifies(config, cooldown, messageCooldown, det, now, env, lastNotification, lastMessage)
    ensures sent.scripts != [] ==> det.detected && now - lastNotification > cooldown && now - lastMessage >= messageCooldown
  {
    if && det.detected
       && now - lastNotification > cooldown
       && Truthy(RecipientOf(config))
       && now - lastMessage >= messageCooldown
    then SendMessage(RecipientOf(config), ServiceSetting(config), env)
    else Sent(false, [])
  }

  /**
   * The times at which handling `frames` in order sends a notification, when
   * the last notification was at `n0` and the messenger's last message at
   * `m0`; after each notification both times are its time.
   */
  ghost function NotifiedTimes(config: map<string, Json>, cooldown: real, messageCooldown: real,
                               frames: seq<Frame>, n0: real, m0: real): seq<real>
  {
    if frames == [] then []
    else
      var prev := NotifiedTimes(config, cooldown, messageCooldown, frames[..|frames| - 1], n0, m0);
      var f := frames[|frames| - 1];
      var d := Detect(config, f.Answers());
      if d.Ok? && Notifies(config, cooldown, messageCooldown, d.value, f.now, f.env, LastTime(prev, n0), LastTime(prev, m0))
      then prev + [f.now]
      else prev
  }

  /** One more handled frame adds one to the count exactly when it found a phone. */
  lemma DetectedStep(config: map<string, Json>, frames: seq<Frame>, n: nat)
    requires n < |frames| && Detect(config, frames[n].Answers()).Ok?
    ensures DetectedFrames(config, frames[..n + 1]) ==
              DetectedFrames(config, frames[..n]) + (if Detect(config, frames[n].Answers()).value.detected then 1 else 0)
  {
    assert frames[..n + 1][..n] == frames[..n];
  }

  /** One more handled frame adds its time to the notification times exactly when it notifies. */
  lemma NotifiedStep(config: map<string, Json>, cooldown: real, messageCooldown: real,
                     frames: seq<Frame>, n: nat, n0: real, m0: real)
    requires n < |frames| && Detect(config, frames[n].Answers()).Ok?
    ensures var prev := NotifiedTimes(config, cooldown, messageCooldown, frames[..n], n0, m0);
            NotifiedTimes(config, cooldown, messageCooldown, frames[..n + 1], n0, m0) ==
              if Notifies(config, cooldown, messageCooldown, Detect(config, frames[n].Answers()).value,
                          frames[n].now, frames[n].env, LastTime(prev, n0), LastTime(prev, m0))
              then prev + [frames[n].now]
              else prev
  {
    assert frames[..n + 1][..n] == frames[..n];
  }

  /**
   * The scripts run while handling `frames` in order, from the same starting
   * times: each frame whose detection succeeded adds what `FrameSend` runs.
   */
  ghost function SentScripts(config: map<string, Json>, cooldown: real, messageCooldown: real,
                             frames: seq<Frame>, n0: real, m0: real): seq<Script>
  {
    if frames == [] then []
    else
      var init := frames[..|frames| - 1];
      var prev := NotifiedTimes(config, cooldown, messageCooldown, init, n0, m0);
      var f := frames[|frames| - 1];
      var d := Detect(config, f.Answers());
      SentScripts(config, cooldown, messageCooldown, init, n0, m0) +
        if d.Ok? then FrameSend(config, cooldown, messageCooldown, d.value, f.now, f.env, LastTime(prev, n0), LastTime(prev, m0)).scripts
        else []
  }

  /** One more handled frame adds what it sends to the scripts run. */
  lemma ScriptsStep(config: map<string, Json>, cooldown: real, messageCooldown: real,
                    frames: seq<Frame>, n: nat, n0: real, m0: real)
    requires n < |frames| && Detect(config, frames[n].Answers()).Ok?
    ensures var prev := NotifiedTimes(config, cooldown, messageCooldown, frames[..n], n0, m0);
            SentScripts(config, cooldown, messageCooldown, frames[..n + 1], n0, m0) ==
              SentScripts(config, cooldown, messageCooldown, frames[..n], n0, m0) +
              FrameSend(config, cooldown, messageCooldown, Detect(config, frames[n].Answers()).value,
                        frames[n].now, frames[n].env, LastTime(prev, n0), LastTime(prev, m0)).scripts
  {
    assert frames[..n + 1][..n] == frames[..n];
  }

  /** Notifications sent by the rule are spaced by more than the loop's cooldown. */
  lemma {:induction false} NotifiedTimesSpaced(config: map<string, Json>, cooldown: real, messageCooldown: real,
                                               frames: seq<Frame>, n0: real, m0: real)
    ensures Spaced(NotifiedTimes(config, cooldown, messageCooldown, frames, n0, m0), n0, cooldown)
  {
    if frames != [] {
      var prev := NotifiedTimes(config, cooldown, messageCooldown, frames[..|frames| - 1], n0, m0);
      NotifiedTimesSpaced(config, cooldown, messageCooldown, frames[..|frames| - 1], n0, m0);
      var f := frames[|frames| - 1];
      if NotifiedTimes(config, cooldown, messageCooldown, frames, n0, m0) != prev {
        SpacedAppend(prev, n0, cooldown, f.now);
      }
    }
  }

  /**
   * Every notification time is the time of a frame whose detection succeeded
   * and found a phone; the lemma returns that frame's index.
   */
  lemma {:induction false} NotifiedTimeOrigin(config: map<string, Json>, cooldown: real, messageCooldown: real,
                                              frames: seq<Frame>, n0: real, m0: real, k: nat) returns (j: nat)
    requires k < |NotifiedTimes(config, cooldown, messageCooldown, frames, n0, m0)|
    ensures j < |frames|
    ensures NotifiedTimes(config, cooldown, messageCooldown, frames, n0, m0)[k] == frames[j].now
    ensures Detect(config, frames[j].Answers()).Ok? && Detect(config, frames[j].Answers()).value.detected
  {
    var init := frames[..|frames| - 1];
    var prev := NotifiedTimes(config, cooldown, messageCooldown, init, n0, m0);
    if k < |prev| {
      j := NotifiedTimeOrigin(config, cooldown, messageCooldown, init, n0, m0, k);
      assert frames[j] == init[j];
    } else {
      j := |frames| - 1;
    }
  }

  /** With neither a phone number nor an e-mail set, no script is ever run. */
  lemma {:induction false} NoRecipientNoScripts(config: map<string, Json>, cooldown: real, messageCooldown: real,
                                                frames: seq<Frame>, n0: real, m0: real)
    requires !Truthy(RecipientOf(config))
    ensures SentScripts(config, cooldown, messageCooldown, frames, n0, m0) == []
  {
    if frames != [] {
      NoRecipientNoScripts(config, cooldown, messageCooldown, frames[..|frames| - 1], n0, m0);
    }
  }

  /**
   * `script` is one of the scripts of the messenger's send for frame `j`, a
   * frame in which a phone was detected, more than the loop's cooldown had
   * passed since the last notification and the messenger's cooldown had
   * passed since its last message.
   */
  ghost predicate SentFrom(config: map<string, Json>, cooldown: real, messageCooldown: real,
                           frames: seq<Frame>, n0: real, m0: real, script: Script, j: nat)
    requires j < |frames|
  {
    var prev := NotifiedTimes(config, cooldown, messageCooldown, frames[..j], n0, m0);
    && Detect(config, frames[j].Answers()).Ok?
    && Detect(config, frames[j].Answers()).value.detected
    && frames[j].now - LastTime(prev, n0) > cooldown
    && frames[j].now - LastTime(prev, m0) >= messageCooldown
    && script in SendMessage(RecipientOf(config), ServiceSetting(config), frames[j].env).scripts
  }

  /** Every script run comes from the send for one handled frame; the lemma returns that frame's index. */
  lemma {:induction false} SentScriptOrigin(config: map<string, Json>, cooldown: real, messageCooldown: real,
                                            frames: seq<Frame>, n0: real, m0: real, k: nat) returns (j: nat)
    requires k < |SentScripts(config, cooldown, messageCooldown, frames, n0, m0)|
    ensures j < |frames|
    ensures SentFrom(config, cooldown, messageCooldown, frames, n0, m0,
                     SentScripts(config, cooldown, messageCooldown, frames, n0, m0)[k], j)
  {
    var init := frames[..|frames| - 1];
    if k < |SentScripts(config, cooldown, messageCooldown, init, n0, m0)| {
      j := SentScriptOrigin(config, cooldown, messageCooldown, init, n0, m0, k);
      EarlierScript(config, cooldown, messageCooldown, frames, n0, m0, k, j);
    } else {
      j := |frames| - 1;
      LastFrameScript(config, cooldown, messageCooldown, frames, n0, m0, k);
    }
  }

  /** A script sent before the last frame keeps its origin when one more frame is handled. */
  lemma EarlierScript(config: map<string, Json>, cooldown: real, messageCooldown: real,
                      frames: seq<Frame>, n0: real, m0: real, k: nat, j: nat)
    requires frames != [] && j < |frames| - 1
    requires var before := SentScripts(config, cooldown, messageCooldown, frames[..|frames| - 1], n0, m0);
      k < |before| && SentFrom(config, cooldown, messageCooldown, frames[..|frames| - 1], n0, m0, before[k], j)
    ensures k < |SentScripts(config, cooldown, messageCooldown, frames, n0, m0)|
    ensures SentFrom(config, cooldown, messageCooldown, frames, n0, m0,
                     SentScripts(config, cooldown, messageCooldown, frames, n0, m0)[k], j)
  {
    var init := frames[..|frames| - 1];
    assert frames[j] == init[j];
    assert frames[..j] == init[..j];
  }

  /** A script sent by the last frame comes from that frame. */
  lemma LastFrameScript(config: map<string, Json>, cooldown: real, messageCooldown: real,
                        frames: seq<Frame>, n0: real, m0: real, k: nat)
    requires frames != []
    requires |SentScripts(config, cooldown, messageCooldown, frames[..|frames| - 1], n0, m0)| <= k
             < |SentScripts(config, cooldown, messageCooldown, frames, n0, m0)|
    ensures SentFrom(config, cooldown, messageCooldown, frames, n0, m0,
                     SentScripts(config, cooldown, messageCooldown, frames, n0, m0)[k], |frames| - 1)
  {
  }

  /** With neither a phone number nor an e-mail set, no notification is ever sent. */
  lemma {:induction false} NoRecipientNoNotifications(config: map<string, Json>, cooldown: real, messageCooldown: real,
                                                      frames: seq<Frame>, n0: real, m0: real)
    requires !Truthy(RecipientOf(config))
    ensures NotifiedTimes(config, cooldown, messageCooldown, frames, n0, m0) == []
  {
    if frames != [] {
      NoRecipientNoNotifications(config, cooldown, messageCooldown, frames[..|frames| - 1], n0, m0);
    }
  }

  /** The first `n` frames were handled without a detection error and without `q`. */
  predicate RanThrough(config: map<string, Json>, frames: seq<Frame>, n: nat)
    requires n <= |frames|
  {
    forall i :: 0 <= i < n ==> Detect(config, frames[i].Answers()).Ok? && !IsQuit(frames[i].key)
  }

  /** A handled frame that was not `q` extends the frames run through by one. */
  lemma RanThroughNext(config: map<string, Json>, frames: seq<Frame>, n: nat)
    requires n < |frames| && RanThrough(config, frames, n)
    requires Detect(config, frames[n].Answers()).Ok?
    ensures !IsQuit(frames[n].key) ==> RanThrough(config, frames, n + 1)
  {
  }

  /** What a run has done so far: the counter, the notification times, both last times and the send log. */
  datatype Tally = Tally(count: int, times: seq<real>, lastNotification: real, lastMessage: real, log: seq<Script>)

  /**
   * `s` is what handling the first `n` frames makes of the starting tally
   * `s0`: each field is what the folds over those frames give.
   */
  ghost predicate Folded(config: map<string, Json>, cooldown: real, messageCooldown: real,
                         frames: seq<Frame>, n: nat, s0: Tally, s: Tally)
    requires n <= |frames|
  {
    var times := NotifiedTimes(config, cooldown, messageCooldown, frames[..n], s0.lastNotification, s0.lastMessage);
    && s.count == s0.count + DetectedFrames(config, frames[..n])
    && s.times == times
    && s.lastNotification == LastTime(times, s0.lastNotification)
    && s.lastMessage == LastTime(times, s0.lastMessage)
    && s.log == s0.log + SentScripts(config, cooldown, messageCooldown, frames[..n], s0.lastNotification, s0.lastMessage)
  }

  /**
   * Handling frame `n` by the per-frame rule (its detection succeeded, it
   * notifies by `Notifies` and sends `FrameSend`) extends the folds by one
   * frame.
   */
  lemma FoldedStep(config: map<string, Json>, cooldown: real, messageCooldown: real, frames: seq<Frame>, n: nat,
                   s0: Tally, s: Tally, det: Detection, notified: bool, sent: Sent)
    requires n < |frames| && Folded(config, cooldown, messageCooldown, frames, n, s0, s)
    requires Detect(config, frames[n].Answers()) == Ok(det)
    requires notified == Notifies(config, cooldown, messageCooldown, det, frames[n].now, frames[n].env,
                                  s.lastNotification, s.lastMessage)
    requires sent == FrameSend(config, cooldown, messageCooldown, det, frames[n].now, frames[n].env,
                               s.lastNotification, s.lastMessage)
    ensures var now := frames[n].now;
      Folded(config, cooldown, messageCooldown, frames, n + 1, s0,
             Tally(s.count + (if det.detected then 1 else 0),
                   if notified then s.times + [now] else s.times,
                   if notified then now else s.lastNotification,
                   if notified then now else s.lastMessage,
                   s.log + sent.scripts))
  {
    FoldedCount(config, cooldown, messageCooldown, frames, n, s0, s, det);
    FoldedTimes(config, cooldown, messageCooldown, frames, n, s0, s, det, notified);
    FoldedLog(config, cooldown, messageCooldown, frames, n, s0, s, det, sent);
  }

  /** The count part of `FoldedStep`. */
  lemma FoldedCount(config: map<string, Json>, cooldown: real, messageCooldown: real, frames: seq<Frame>, n: nat,
                    s0: Tally, s: Tally, det: Detection)
    requires n < |frames| && Folded(config, cooldown, messageCooldown, frames, n, s0, s)
    requires Detect(config, frames[n].Answers()) == Ok(det)
    ensures s.count + (if det.detected then 1 else 0) == s0.count + DetectedFrames(config, frames[..n + 1])
  {
    DetectedStep(config, frames, n);
  }

  /** The notification-times part of `FoldedStep`. */
  lemma FoldedTimes(config: map<string, Json>, cooldown: real, messageCooldown: real, frames: seq<Frame>, n: nat,
                    s0: Tally, s: Tally, det: Detection, notified: bool)
    requires n < |frames| && Folded(config, cooldown, messageCooldown, frames, n, s0, s)
    requires Detect(config, frames[n].Answers()) == Ok(det)
    requires notified == Notifies(config, cooldown, messageCooldown, det, frames[n].now, frames[n].env,
                                  s.lastNotification, s.lastMessage)
    ensures var now := frames[n].now;
            var times := if notified then s.times + [now] else s.times;
            && times == NotifiedTimes(config, cooldown, messageCooldown, frames[..n + 1], s0.lastNotification, s0.lastMessage)
            && (if notified then now else s.lastNotification) == LastTime(times, s0.lastNotification)
            && (if notified then now else s.lastMessage) == LastTime(times, s0.lastMessage)
  {
    NotifiedStep(config, cooldown, messageCooldown, frames, n, s0.lastNotification, s0.lastMessage);
  }

  /** The scripts part of `FoldedStep`. */
  lemma FoldedLog(config: map<string, Json>, cooldown: real, messageCooldown: real, frames: seq<Frame>, n: nat,
                  s0: Tally, s: Tally, det: Detection, sent: Sent)
    requires n < |frames| && Folded(config, cooldown, messageCooldown, frames, n, s0, s)
    requires Detect(config, frames[n].Answers()) == Ok(det)
    requires sent == FrameSend(config, cooldown, messageCooldown, det, frames[n].now, frames[n].env,
                               s.lastNotification, s.lastMessage)
    ensures s.log + sent.scripts ==
            s0.log + SentScripts(config, cooldown, messageCooldown, frames[..n + 1], s0.lastNotification, s0.lastMessage)
  {
    ScriptsStep(config, cooldown, messageCooldown, frames, n, s0.lastNotification, s0.lastMessage);
    var before := SentScripts(config, cooldown, messageCooldown, frames[..n], s0.lastNotification, s0.lastMessage);
    assert s.log + sent.scripts == s0.log + (before + sent.scripts);
  }


  class Detector {
    const config: map<string, Json>
    var detectionCount: int
    var lastNotificationTime: real
    const notificationCooldown: real
    const messenger: Messenger

    /**
     * `__init__`: the configuration is loaded, both counters start at zero,
     * the loop's own cooldown is the constant 60 and the messenger's cooldown
     * is taken from the configuration.
     */
    constructor (file: ConfigFile)
      requires LoadedConfig(file).JObject?
      requires CooldownSetting(LoadedConfig(file).fields).Ok?
      ensures config == LoadedConfig(file).fields
      ensures detectionCount == 0 && lastNotificationTime == 0.0 && notificationCooldown == 60.0
      ensures fresh(messenger) && messenger.log == []
      ensures messenger.lastMessageTime == 0.0 && messenger.messageCooldown == CooldownSetting(config).value
    {
      var loaded := LoadConfig(file);
      config := loaded.fields;
      detectionCount := 0;
      lastNotificationTime := 0.0;
      notificationCooldown := 60.0;
      var m := new Messenger();
      m.messageCooldown := CooldownSetting(loaded.fields).value;
      messenger := m;
    }

    /**
     * `send_notification`: the phone number if it is set, else the e-mail;
     * with neither, `False` without calling the messenger; otherwise the
     * messenger's cooldown-guarded send.
     */
    method SendNotification(now: real, env: SendEnv) returns (ok: bool, sent: Sent)
      modifies messenger`lastMessageTime, messenger`log
      ensures !Truthy(RecipientOf(config)) ==> !ok && sent == Sent(false, [])
      ensures Truthy(RecipientOf(config)) && now - old(messenger.lastMessageTime) < messenger.messageCooldown ==>
        !ok && sent == Sent(false, [])
      ensures Truthy(RecipientOf(config)) && now - old(messenger.lastMessageTime) >= messenger.messageCooldown ==>
        sent == SendMessage(RecipientOf(config), ServiceSetting(config), env) && ok == sent.ok
      ensures messenger.lastMessageTime == if ok then now else old(messenger.lastMessageTime)
      ensures messenger.log == old(messenger.log) + sent.scripts
    {
      var recipient := RecipientOf(config);
      if !Truthy(recipient) {
        return false, Sent(false, []);
      }
      ok, sent := messenger.SendNotificationWithCooldown(recipient, ServiceSetting(config), now, env);
    }

    /**
     * One iteration of `run` after detection: a detected frame adds exactly
     * one to the count; a send is tried only when more than
     * `notificationCooldown` has passed since the last notification, and
     * `sent` is what it ran; the time of the last notification moves to
     * `now` only when the send succeeded.
     */
    method Step(det: Detection, now: real, env: SendEnv) returns (notified: bool, sent: Sent)
      modifies this`detectionCount, this`lastNotificationTime, messenger`lastMessageTime, messenger`log
      ensures detectionCount == old(detectionCount) + (if det.detected then 1 else 0)
      ensures notified ==> det.detected && now - old(lastNotificationTime) > notificationCooldown
      ensures lastNotificationTime == if notified then now else old(lastNotificationTime)
      ensures !(det.detected && now - old(lastNotificationTime) > notificationCooldown) ==>
        messenger.lastMessageTime == old(messenger.lastMessageTime)
      ensures det.detected && now - old(lastNotificationTime) > notificationCooldown ==>
        (notified <==>
          Truthy(RecipientOf(config)) &&
          now - old(messenger.lastMessageTime) >= messenger.messageCooldown &&
          SendMessage(RecipientOf(config), ServiceSetting(config), env).ok)
      ensures notified == Notifies(config, notificationCooldown, messenger.messageCooldown, det, now, env,
                                   old(lastNotificationTime), old(messenger.lastMessageTime))
      ensures messenger.lastMessageTime == if notified then now else old(messenger.lastMessageTime)
      ensures sent == FrameSend(config, notificationCooldown, messenger.messageCooldown, det, now, env,
                                old(lastNotificationTime), old(messenger.lastMessageTime))
      ensures messenger.log == old(messenger.log) + sent.scripts
    {
      notified, sent := false, Sent(false, []);
      if det.detected {
        detectionCount := detectionCount + 1;
        if now - lastNotificationTime > notificationCooldown {
          var ok;
          ok, sent := SendNotification(now, env);
          if ok {
            lastNotificationTime := now;
            notified := true;
          }
        }
      }
    }

    /**
     * One pass of the loop body of `run` for a frame that was read: detection
     * runs first, and when it raises nothing else happens and no script runs;
     * otherwise `Step` handles the detection.
     */
    method HandleFrame(frame: Frame) returns (raised: bool, notified: bool, sent: Sent)
      modifies this`detectionCount, this`lastNotificationTime, messenger`lastMessageTime, messenger`log
      ensures raised <==> Detect(config, frame.Answers()).Raised?
      ensures raised ==> !notified && sent == Sent(false, []) && detectionCount == old(detectionCount)
      ensures !raised ==>
        sent == FrameSend(config, notificationCooldown, messenger.messageCooldown, Detect(config, frame.Answers()).value,
                          frame.now, frame.env, old(lastNotificationTime), old(messenger.lastMessageTime))
      ensures !raised ==>
        detectionCount == old(detectionCount) + (if Detect(config, frame.Answers()).value.detected then 1 else 0)
      ensures !raised ==>
        notified == Notifies(config, notificationCooldown, messenger.messageCooldown, Detect(config, frame.Answers()).value,
                             frame.now, frame.env, old(lastNotificationTime), old(messenger.lastMessageTime))
      ensures lastNotificationTime == if notified then frame.now else old(lastNotificationTime)
      ensures messenger.lastMessageTime == if notified then frame.now else old(messenger.lastMessageTime)
      ensures messenger.log == old(messenger.log) + sent.scripts
    {
      var det := DetectIphone(config, frame.template, frame.color, frame.shape);
      if det.Raised? {
        return true, false, Sent(false, []);
      }
      raised := false;
      notified, sent := Step(det.value, frame.now, frame.env);
    }

    /**
     * The state after the first `n` frames of a run, from the counter
     * `count0`, the times `n0` and `m0` and the log `log0`: each field is
     * what the folds over those frames give, and `times` are the
     * notification times.
     */
    ghost predicate Replayed(frames: seq<Frame>, n: nat, times: seq<real>, count0: int, n0: real, m0: real,
                             log0: seq<Script>)
      requires n <= |frames|
      reads this, messenger
    {
      Folded(config, notificationCooldown, messenger.messageCooldown, frames, n, Tally(count0, [], n0, m0, log0),
             Tally(detectionCount, times, lastNotificationTime, messenger.lastMessageTime, messenger.log))
    }

    /**
     * One pass of the loop of `run` over frame `n`, stated over the run so
     * far: when detection raises nothing changes; otherwise the state is
     * that of the first `n + 1` frames.
     */
    method Advance(frames: seq<Frame>, n: nat, times: seq<real>, ghost count0: int, ghost n0: real, ghost m0: real,
                   ghost log0: seq<Script>) returns (raised: bool, times': seq<real>)
      requires n < |frames| && Replayed(frames, n, times, count0, n0, m0, log0)
      modifies this`detectionCount, this`lastNotificationTime, messenger`lastMessageTime, messenger`log
      ensures raised <==> Detect(config, frames[n].Answers()).Raised?
      ensures raised ==> Replayed(frames, n, times', count0, n0, m0, log0)
      ensures !raised ==> Replayed(frames, n + 1, times', count0, n0, m0, log0)
    {
      var frame := frames[n];
      ghost var s := Tally(detectionCount, times, lastNotificationTime, messenger.lastMessageTime, messenger.log);
      var notified, sent;
      raised, notified, sent := HandleFrame(frame);
      times' := times;
      if !raised {
        FoldedStep(config, notificationCooldown, messenger.messageCooldown, frames, n, Tally(count0, [], n0, m0, log0), s,
                   Detect(config, frame.Answers()).value, notified, sent);
        if notified {
          times' := times + [frame.now];
        }
      }
    }

    /**
     * `run`: frames are handled until the camera yields none, `q` is
     * pressed (after that frame is handled) or detection raises (the loop's
     * `except` ends it). Returns how many frames were handled and the times
     * at which a notification went out; those times are spaced by more than
     * the cooldown.
     */
    method Run(cameraOpen: bool, frames: seq<Frame>) returns (processed: nat, notifiedAt: seq<real>)
      modifies this`detectionCount, this`lastNotificationTime, messenger`lastMessageTime, messenger`log
      ensures processed <= |frames|
      ensures !cameraOpen ==> processed == 0 && notifiedAt == []
      ensures processed > 0 ==> RanThrough(config, frames, processed - 1)
      ensures processed > 0 ==> Detect(config, frames[processed - 1].Answers()).Ok?
      ensures cameraOpen && processed < |frames| ==>
        (processed > 0 && IsQuit(frames[processed - 1].key)) || Detect(config, frames[processed].Answers()).Raised?
      ensures detectionCount == old(detectionCount) + DetectedFrames(config, frames[..processed])
      ensures Spaced(notifiedAt, old(lastNotificationTime), notificationCooldown)
      ensures lastNotificationTime == LastTime(notifiedAt, old(lastNotificationTime))
      ensures messenger.lastMessageTime == LastTime(notifiedAt, old(messenger.lastMessageTime))
      ensures notifiedAt == NotifiedTimes(config, notificationCooldown, messenger.messageCooldown, frames[..processed],
                                          old(lastNotificationTime), old(messenger.lastMessageTime))
      ensures messenger.log == old(messenger.log) + SentScripts(config, notificationCooldown, messenger.messageCooldown,
                                                                frames[..processed], old(lastNotificationTime),
                                                                old(messenger.lastMessageTime))
    {
      processed, notifiedAt := 0, [];
      if !cameraOpen {
        assert frames[..processed] == [];
        assert messenger.log == old(messenger.log) + [];
        return;
      }
      ghost var start := lastNotificationTime;
      ghost var count0 := detectionCount;
      ghost var mstart := messenger.lastMessageTime;
      ghost var log0 := messenger.log;
      assert frames[..processed] == [];
      while processed < |frames|
        invariant processed <= |frames|
        invariant RanThrough(config, frames, processed)
        invariant Replayed(frames, processed, notifiedAt, count0, start, mstart, log0)
      {
        var raised;
        raised, notifiedAt := Advance(frames, processed, notifiedAt, count0, start, mstart, log0);
        if raised {
          break;
        }
        RanThroughNext(config, frames, processed);
        processed := processed + 1;
        if IsQuit(frames[processed - 1].key) {
          break;
        }
      }
      NotifiedTimesSpaced(config, notificationCooldown, messenger.messageCooldown, frames[..processed], start, mstart);
    }
  }
}
