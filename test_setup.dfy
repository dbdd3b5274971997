/**
 * The setup checker: `test_config`, which validates `config.json`, and the
 * result folding of `main`, which runs the four checks and decides whether
 * everything passed. The three environment probes (imports, camera,
 * messaging) are inputs here: their outcomes arrive as values.
 */
module SetupTest {
  import opened Values
  import IphoneDetector

  /** The keys every configuration must carry, in the order they are checked. */
  const RequiredFields: seq<string> :=
    ["camera_index", "detection_confidence", "notification_cooldown", "message_service"]

  /** The entry reported when neither a phone number nor an e-mail is set. */
  const RecipientEntry: string := "recipient (phone or email)"

  /** Every entry that can be reported, in the order it would appear. */
  const ReportOrder: seq<string> := RequiredFields + [RecipientEntry]

  /**
   * When one required field counts as missing: absent; for `camera_index`,
   * `null` (so `0` is accepted); for the others, any falsy value.
   */
  predicate FieldMissing(config: map<string, Json>, field: string) {
    field !in config || (if field == "camera_index" then config[field] == JNull else !Truthy(config[field]))
  }

  /** `config.get("recipient_phone_number") or config.get("recipient_email")` is truthy. */
  predicate HasRecipient(config: map<string, Json>) {
    Truthy(IphoneDetector.RecipientOf(config))
  }

  /** The `missing_fields` entries contributed by `fields`, in order. */
  function MissingAmong(config: map<string, Json>, fields: seq<string>): seq<string> {
    if fields == [] then []
    else
      var last := fields[|fields| - 1];
      MissingAmong(config, fields[..|fields| - 1]) + (if FieldMissing(config, last) then [last] else [])
  }

  /** The complete `missing_fields` list for a configuration object. */
  function Reported(config: map<string, Json>): seq<string> {
    MissingAmong(config, RequiredFields) + (if HasRecipient(config) then [] else [RecipientEntry])
  }

  /** What `test_config` returns for a configuration file. */
  predicate ConfigPasses(file: ConfigFile) {
    file.Parsed? && file.doc.JObject? && Reported(file.doc.fields) == []
  }

  /** Position of `x` in `s`, or `|s|` when it does not occur. */
  function IndexOf(s: seq<string>, x: string): (k: nat)
    ensures k <= |s|
    ensures k < |s| ==> s[k] == x
    ensures forall j :: 0 <= j < k ==> s[j] != x
    ensures x in s ==> k < |s|
  {
    if s == [] then 0
    else if s[0] == x then 0
    else 1 + IndexOf(s[1..], x)
  }

  /**
   * The loop over `required_fields` followed by the recipient check: builds
   * exactly the list `Reported` describes.
   */
  method CheckFields(config: map<string, Json>) returns (missing: seq<string>)
    ensures missing == Reported(config)
  {
    missing := [];
    var i := 0;
    while i < |RequiredFields|
      invariant 0 <= i <= |RequiredFields|
      invariant missing == MissingAmong(config, RequiredFields[..i])
    {
      var field := RequiredFields[i];
      assert RequiredFields[..i + 1][..i] == RequiredFields[..i];
      if field !in config {
        missing := missing + [field];
      } else if field == "camera_index" && config[field] == JNull {
        missing := missing + [field];
      } else if field != "camera_index" && !Truthy(config[field]) {
        missing := missing + [field];
      }
      i := i + 1;
    }
    assert RequiredFields[..i] == RequiredFields;
    var recipient := IphoneDetector.RecipientOf(config);
    if !Truthy(recipient) {
      missing := missing + [RecipientEntry];
    }
  }

  /**
   * `test_config`: a missing file, a file that cannot be read or parsed, and
   * a document that is not an object (its `.get` raises inside the `try`)
   * all fail; an object passes exactly when nothing is reported.
   */
  method TestConfig(file: ConfigFile) returns (passed: bool, missing: seq<string>)
    ensures passed == ConfigPasses(file)
    ensures file.Parsed? && file.doc.JObject? ==> missing == Reported(file.doc.fields)
    ensures !(file.Parsed? && file.doc.JObject?) ==> missing == []
  {
    missing := [];
    match file {
      case NoFile =>
        return false, [];
      case Unreadable =>
        return false, [];
      case Parsed(doc) =>
        if !doc.JObject? {
          return false, [];
        }
        missing := CheckFields(doc.fields);
        passed := missing == [];
    }
  }

  /** A field of `fields` is among the entries it contributes exactly when it is missing. */
  lemma {:induction false} MissingAmongMembers(config: map<string, Json>, fields: seq<string>, x: string)
    ensures x in MissingAmong(config, fields) <==> x in fields && FieldMissing(config, x)
  {
    if fields != [] {
      var init := fields[..|fields| - 1];
      MissingAmongMembers(config, init, x);
      assert fields == init + [fields[|fields| - 1]];
    }
  }

  /** A required field is reported exactly when it counts as missing. */
  lemma FieldReported(config: map<string, Json>, field: string)
    requires field in RequiredFields
    ensures field in Reported(config) <==> FieldMissing(config, field)
  {
    MissingAmongMembers(config, RequiredFields, field);
  }

  /** Every required key that is absent from the configuration is reported. */
  lemma AbsentFieldReported(config: map<string, Json>, field: string)
    requires field in RequiredFields && field !in config
    ensures field in Reported(config)
  {
    FieldReported(config, field);
  }

  /** `camera_index` is reported only when absent or `null`; in particular `0` passes. */
  lemma CameraIndexReported(config: map<string, Json>)
    ensures "camera_index" in Reported(config) <==> "camera_index" !in config || config["camera_index"] == JNull
    ensures "camera_index" in config && config["camera_index"] == JInt(0) ==> "camera_index" !in Reported(config)
  {
    FieldReported(config, "camera_index");
  }

  /** The other required fields are reported when absent or falsy. */
  lemma OtherFieldReported(config: map<string, Json>, field: string)
    requires field in RequiredFields && field != "camera_index"
    ensures field in Reported(config) <==> field !in config || !Truthy(config[field])
  {
    FieldReported(config, field);
  }

  /** The recipient entry is reported exactly when neither recipient is set to a truthy value. */
  lemma RecipientEntryReported(config: map<string, Json>)
    ensures RecipientEntry in Reported(config) <==>
      !Truthy(GetOr(config, "recipient_phone_number", JNull)) && !Truthy(GetOr(config, "recipient_email", JNull))
  {
    MissingAmongMembers(config, RequiredFields, RecipientEntry);
  }

  /** Each reportable entry sits at its own position: the entries are pairwise different. */
  lemma OrderPositions()
    ensures forall k :: 0 <= k < |ReportOrder| ==> IndexOf(ReportOrder, ReportOrder[k]) == k
  {
    assert |ReportOrder| == 5;
    assert |ReportOrder[0]| == 12 && |ReportOrder[1]| == 20 && |ReportOrder[2]| == 21;
    assert |ReportOrder[3]| == 15 && |ReportOrder[4]| == 26;
    forall k | 0 <= k < |ReportOrder|
      ensures IndexOf(ReportOrder, ReportOrder[k]) == k
    {
      var p := IndexOf(ReportOrder, ReportOrder[k]);
      assert p <= k;
      assert ReportOrder[p] == ReportOrder[k];
    }
  }

  /** Entries listed in the order of `ReportOrder`. */
  predicate InReportOrder(r: seq<string>) {
    forall i, j :: 0 <= i < j < |r| ==> IndexOf(ReportOrder, r[i]) < IndexOf(ReportOrder, r[j])
  }

  /** Entries all among the first `n` of `ReportOrder`. */
  predicate AmongFirst(r: seq<string>, n: nat) {
    forall i :: 0 <= i < |r| ==> IndexOf(ReportOrder, r[i]) < n
  }

  /** The entries contributed by the first `n` required fields follow their declared order. */
  lemma {:induction false} MissingPrefixOrdered(config: map<string, Json>, n: nat)
    requires n <= |RequiredFields|
    ensures AmongFirst(MissingAmong(config, RequiredFields[..n]), n)
    ensures InReportOrder(MissingAmong(config, RequiredFields[..n]))
  {
    if n > 0 {
      MissingPrefixOrdered(config, n - 1);
      var fields := RequiredFields[..n];
      assert fields[..n - 1] == RequiredFields[..n - 1];
      var prev := MissingAmong(config, RequiredFields[..n - 1]);
      var last := fields[n - 1];
      OrderPositions();
      assert ReportOrder[n - 1] == last;
      var r := MissingAmong(config, fields);
      if FieldMissing(config, last) {
        assert r == prev + [last];
        forall i | 0 <= i < |r|
          ensures IndexOf(ReportOrder, r[i]) < n
          ensures i < |prev| ==> IndexOf(ReportOrder, r[i]) < n - 1
        {
          if i < |prev| {
            assert r[i] == prev[i];
          }
        }
      } else {
        assert r == prev;
      }
    }
  }

  /**
   * The report follows the declared order of the required fields with the
   * recipient entry last; hence no entry appears twice.
   */
  lemma ReportOrdered(config: map<string, Json>)
    ensures forall e :: e in Reported(config) ==> e in ReportOrder
    ensures InReportOrder(Reported(config))
    ensures forall i, j :: 0 <= i < j < |Reported(config)| ==> Reported(config)[i] != Reported(config)[j]
  {
    MissingPrefixOrdered(config, |RequiredFields|);
    assert RequiredFields[..|RequiredFields|] == RequiredFields;
    OrderPositions();
    assert IndexOf(ReportOrder, RecipientEntry) == |RequiredFields| by {
      assert ReportOrder[|RequiredFields|] == RecipientEntry;
    }
    var r := Reported(config);
    forall i | 0 <= i < |r|
      ensures r[i] in ReportOrder
    {
      assert IndexOf(ReportOrder, r[i]) < |ReportOrder|;
      assert ReportOrder[IndexOf(ReportOrder, r[i])] == r[i];
    }
  }

  /**
   * What `test_config` returns, stated field by field: an object in which no
   * required field is missing and some recipient is set.
   */
  lemma ConfigPassesMeans(file: ConfigFile)
    ensures ConfigPasses(file) <==>
      file.Parsed? && file.doc.JObject? &&
      (forall f :: f in RequiredFields ==> !FieldMissing(file.doc.fields, f)) &&
      HasRecipient(file.doc.fields)
  {
    if file.Parsed? && file.doc.JObject? {
      var config := file.doc.fields;
      forall f | f in RequiredFields
        ensures f in Reported(config) <==> FieldMissing(config, f)
      {
        FieldReported(config, f);
      }
      RecipientEntryReported(config);
      if Reported(config) != [] {
        ReportOrdered(config);
        assert Reported(config)[0] in ReportOrder;
      }
    }
  }

  // ---------------------------------------------------------------------
  // main
  // ---------------------------------------------------------------------

  /**
   * The `results` loop: each check's name with what it returned, or `False`
   * when it raised.
   */
  method CollectResults(tests: seq<(string, Try<Json>)>) returns (results: seq<(string, Json)>)
    ensures |results| == |tests|
    ensures forall i :: 0 <= i < |tests| ==> results[i].0 == tests[i].0
    ensures forall i :: 0 <= i < |tests| ==> tests[i].1.Ok? ==> results[i].1 == tests[i].1.value
    ensures forall i :: 0 <= i < |tests| ==> tests[i].1.Raised? ==> results[i].1 == JBool(false)
  {
    results := [];
    for k := 0 to |tests|
      invariant |results| == k
      invariant forall i :: 0 <= i < k ==> results[i].0 == tests[i].0
      invariant forall i :: 0 <= i < k ==> tests[i].1.Ok? ==> results[i].1 == tests[i].1.value
      invariant forall i :: 0 <= i < k ==> tests[i].1.Raised? ==> results[i].1 == JBool(false)
    {
      var (name, outcome) := tests[k];
      match outcome {
        case Ok(result) =>
          results := results + [(name, result)];
        case Raised =>
          results := results + [(name, JBool(false))];
      }
    }
  }

  /** The `all_passed` loop: true exactly when every recorded result is truthy. */
  method FoldResults(results: seq<(string, Json)>) returns (allPassed: bool)
    ensures allPassed <==> forall i :: 0 <= i < |results| ==> Truthy(results[i].1)
  {
    allPassed := true;
    for k := 0 to |results|
      invariant allPassed <==> forall i :: 0 <= i < k ==> Truthy(results[i].1)
    {
      if !Truthy(results[k].1) {
        allPassed := false;
      }
    }
  }

  /** Whether a check passed in `main`: it returned a truthy value and did not raise. */
  predicate Passed(outcome: Try<Json>) {
    outcome.Ok? && Truthy(outcome.value)
  }

  /**
   * `main`: the four checks in order; everything passes exactly when the
   * import, camera and messaging checks returned truthy values and the
   * configuration is valid.
   */
  method RunSetupTests(imports: Try<Json>, camera: Try<Json>, file: ConfigFile, messaging: Try<Json>)
    returns (allPassed: bool)
    ensures allPassed <==> Passed(imports) && Passed(camera) && ConfigPasses(file) && Passed(messaging)
  {
    var configOk, _ := TestConfig(file);
    var tests := [
      ("Package Imports", imports),
      ("Camera Access", camera),
      ("Configuration", Ok(JBool(configOk))),
      ("macOS Messaging", messaging)
    ];
    var results := CollectResults(tests);
    allPassed := FoldResults(results);
    assert Passed(tests[0].1) <==> Truthy(results[0].1);
    assert Passed(tests[1].1) <==> Truthy(results[1].1);
    assert Passed(tests[2].1) <==> Truthy(results[2].1);
    assert Passed(tests[3].1) <==> Truthy(results[3].1);
  }
}
