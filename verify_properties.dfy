/** Properties of the receipt verifier that relate several verifications:
    what stops it early, what it ignores, what it cannot tell apart, and the
    outcomes of concrete receipts. The digest function stays a parameter
    throughout, so nothing here relies on SHA-256 resisting collisions. */
module ReceiptProperties {
  import opened PyJson
  import opened ReceiptVerifier

  /** A document lacking a required field is reported malformed with the
      list of missing fields, and the digest is never consulted: any two
      digest functions give the same verdict. */
  lemma MissingFieldsStopVerification(v: Value, sha1: string -> string, sha2: string -> string)
    requires SupportsIn(v) && MissingFields(v) != []
    ensures Verify(Json(v), sha1) == Malformed(Missing(MissingFields(v)))
    ensures Verify(Json(v), sha1) == Verify(Json(v), sha2)
  {
  }

  /** With all five fields present and the content fields strings, the
      receipt is valid exactly when the stored hash is the string the digest
      function gives for the concatenated content, compared exactly; it is
      tampered otherwise, and the report carries both hashes. */
  lemma ValidIffDigestMatches(receipt: map<string, Value>, sha256: string -> string)
    requires Hashable(receipt)
    ensures Verify(Json(Obj(receipt)), sha256) == Valid <==>
              receipt["hash"] == Str(sha256(ReceiptInput(receipt)))
    ensures receipt["hash"] != Str(sha256(ReceiptInput(receipt))) ==>
              Verify(Json(Obj(receipt)), sha256) ==
              Tampered(receipt["hash"], sha256(ReceiptInput(receipt)))
  {
  }

  /** Two dicts that agree on which required keys they hold and on the
      values stored under them. */
  predicate AgreeOnRequired(m1: map<string, Value>, m2: map<string, Value>) {
    forall i :: 0 <= i < |Required| ==>
      (Required[i] in m1 <==> Required[i] in m2)
      && (Required[i] in m1 ==> m1[Required[i]] == m2[Required[i]])
  }

  lemma {:induction false} MissingFromAgree(m1: map<string, Value>, m2: map<string, Value>, k: nat)
    requires AgreeOnRequired(m1, m2) && k <= |Required|
    ensures MissingFrom(Obj(m1), k) == MissingFrom(Obj(m2), k)
    decreases |Required| - k
  {
    if k < |Required| {
      MissingFromAgree(m1, m2, k + 1);
    }
  }

  /** Only the five required fields decide the verdict: dicts that agree on
      them get the same verdict, whatever else they hold. */
  lemma VerdictDependsOnlyOnRequired(m1: map<string, Value>, m2: map<string, Value>, sha256: string -> string)
    requires AgreeOnRequired(m1, m2)
    ensures Verify(Json(Obj(m1)), sha256) == Verify(Json(Obj(m2)), sha256)
  {
    MissingFromAgree(m1, m2, 0);
    assert Required[0] == "timestamp" && Required[1] == "model" && Required[2] == "prompt";
    assert Required[3] == "response" && Required[4] == "hash";
  }

  /** Adding, changing or removing a key that is not required, such as the
      store's `id`, leaves the verdict unchanged. */
  lemma ExtraKeyIgnored(receipt: map<string, Value>, key: string, value: Value, sha256: string -> string)
    requires key !in Required
    ensures Verify(Json(Obj(receipt[key := value])), sha256) == Verify(Json(Obj(receipt)), sha256)
    ensures Verify(Json(Obj(receipt - {key})), sha256) == Verify(Json(Obj(receipt)), sha256)
  {
    assert forall i :: 0 <= i < |Required| ==> Required[i] != key;
    VerdictDependsOnlyOnRequired(receipt[key := value], receipt, sha256);
    VerdictDependsOnlyOnRequired(receipt - {key}, receipt, sha256);
  }

  /** Field boundaries are not part of the hash input: receipts whose content
      fields concatenate to the same string and whose stored hashes are equal
      get the same verdict. */
  lemma SameInputSameVerdict(m1: map<string, Value>, m2: map<string, Value>, sha256: string -> string)
    requires Hashable(m1) && Hashable(m2)
    requires ReceiptInput(m1) == ReceiptInput(m2) && m1["hash"] == m2["hash"]
    ensures Verify(Json(Obj(m1)), sha256) == Verify(Json(Obj(m2)), sha256)
  {
  }

  /** A receipt whose content fields are `"ab", "c", "", ""` and one whose
      content fields are `"a", "bc", "", ""` cannot be told apart. */
  lemma FieldBoundaryCollision(stored: Value, sha256: string -> string)
    ensures Verify(Json(Obj(map["timestamp" := Str("ab"), "model" := Str("c"), "prompt" := Str(""),
                                "response" := Str(""), "hash" := stored])), sha256)
         == Verify(Json(Obj(map["timestamp" := Str("a"), "model" := Str("bc"), "prompt" := Str(""),
                                "response" := Str(""), "hash" := stored])), sha256)
  {
    var m1 := map["timestamp" := Str("ab"), "model" := Str("c"), "prompt" := Str(""),
                  "response" := Str(""), "hash" := stored];
    var m2 := map["timestamp" := Str("a"), "model" := Str("bc"), "prompt" := Str(""),
                  "response" := Str(""), "hash" := stored];
    assert ReceiptInput(m1) == "abc" == ReceiptInput(m2);
    SameInputSameVerdict(m1, m2, sha256);
  }

  /** Replacing one content field with a different string always changes
      the hash input: the other three fields stay where they were, so either
      the input's length or the slice holding the edited field differs. */
  lemma EditedFieldChangesInput(receipt: map<string, Value>, field: string, text: string)
    requires Hashable(receipt)
    requires field in Required && field != "hash"
    requires receipt[field] != Str(text)
    ensures Hashable(receipt[field := Str(text)])
    ensures ReceiptInput(receipt[field := Str(text)]) != ReceiptInput(receipt)
  {
    var edited := receipt[field := Str(text)];
    var t, m, p, q := receipt["timestamp"].text, receipt["model"].text,
                      receipt["prompt"].text, receipt["response"].text;
    var t', m', p', q' := edited["timestamp"].text, edited["model"].text,
                          edited["prompt"].text, edited["response"].text;
    var a, b := ReceiptInput(receipt), ReceiptInput(edited);
    if |a| == |b| {
      if field == "timestamp" {
        assert |t'| == |t| && a[..|t|] == t && b[..|t'|] == t' && t != t';
      } else if field == "model" {
        assert t' == t && |m'| == |m|;
        assert a[|t|..|t| + |m|] == m && b[|t'|..|t'| + |m'|] == m' && m != m';
      } else if field == "prompt" {
        assert t' == t && m' == m && |p'| == |p|;
        assert a[|t| + |m|..|t| + |m| + |p|] == p && b[|t'| + |m'|..|t'| + |m'| + |p'|] == p' && p != p';
      } else {
        assert t' == t && m' == m && p' == p && |q'| == |q|;
        assert a[|t| + |m| + |p|..] == q && b[|t'| + |m'| + |p'|..] == q' && q != q';
      }
    }
  }

  /** Replacing one content field of a valid receipt with a different string
      makes the receipt tampered, reporting the original hash as expected and
      the new digest as computed, unless the digest function maps the old
      and the new hash input, which always differ, to the same string: only
      a collision of the digest itself goes undetected. */
  lemma EditedFieldTampered(receipt: map<string, Value>, field: string, text: string, sha256: string -> string)
    requires Hashable(receipt) && Verify(Json(Obj(receipt)), sha256) == Valid
    requires field in Required && field != "hash"
    requires sha256(ReceiptInput(receipt[field := Str(text)])) != sha256(ReceiptInput(receipt))
    ensures Verify(Json(Obj(receipt[field := Str(text)])), sha256)
         == Tampered(receipt["hash"], sha256(ReceiptInput(receipt[field := Str(text)])))
  {
    var edited := receipt[field := Str(text)];
    assert Hashable(edited);
    assert edited["hash"] == receipt["hash"];
  }

  /** A concrete receipt: it verifies when its
      hash is the digest of `"2025-01-01T00:00:00Z" + "gpt-4o-mini" + "2+2?"
      + "4"`, and after its response is changed to `"five"` it is tampered,
      provided the two inputs have different digests. */
  lemma WorkedExample(sha256: string -> string)
    requires sha256("2025-01-01T00:00:00Zgpt-4o-mini2+2?five") != sha256("2025-01-01T00:00:00Zgpt-4o-mini2+2?4")
    ensures Verify(Json(Obj(map["id" := Num(1), "timestamp" := Str("2025-01-01T00:00:00Z"),
                                "model" := Str("gpt-4o-mini"), "prompt" := Str("2+2?"),
                                "response" := Str("4"),
                                "hash" := Str(sha256("2025-01-01T00:00:00Zgpt-4o-mini2+2?4"))])), sha256)
         == Valid
    ensures Verify(Json(Obj(map["id" := Num(1), "timestamp" := Str("2025-01-01T00:00:00Z"),
                                "model" := Str("gpt-4o-mini"), "prompt" := Str("2+2?"),
                                "response" := Str("five"),
                                "hash" := Str(sha256("2025-01-01T00:00:00Zgpt-4o-mini2+2?4"))])), sha256)
         == Tampered(Str(sha256("2025-01-01T00:00:00Zgpt-4o-mini2+2?4")),
                     sha256("2025-01-01T00:00:00Zgpt-4o-mini2+2?five"))
  {
    var good := map["id" := Num(1), "timestamp" := Str("2025-01-01T00:00:00Z"),
                    "model" := Str("gpt-4o-mini"), "prompt" := Str("2+2?"),
                    "response" := Str("4"),
                    "hash" := Str(sha256("2025-01-01T00:00:00Zgpt-4o-mini2+2?4"))];
    assert ReceiptInput(good) == "2025-01-01T00:00:00Zgpt-4o-mini2+2?4";
    var bad := good["response" := Str("five")];
    assert ReceiptInput(bad) == "2025-01-01T00:00:00Zgpt-4o-mini2+2?five";
    EditedFieldTampered(good, "response", "five", sha256);
  }

  /** When `in` finds none of the required fields from position `k` on,
      all of them are reported missing, in their original order. */
  lemma {:induction false} NoneFoundAllMissing(v: Value, k: nat)
    requires SupportsIn(v) && k <= |Required|
    requires forall i :: k <= i < |Required| ==> !Contains(v, Required[i])
    ensures MissingFrom(v, k) == Required[k..]
    decreases |Required| - k
  {
    if k < |Required| {
      NoneFoundAllMissing(v, k + 1);
      assert Required[k..] == [Required[k]] + Required[k + 1..];
    }
  }

  /** A list document lacking the field names is reported with all five
      fields missing: `in` on a list tests its elements. */
  lemma ListWithoutFieldNames(sha256: string -> string)
    ensures Verify(Json(Arr([Str("id")])), sha256) == Malformed(Missing(Required))
  {
    var doc := Arr([Str("id")]);
    assert forall i :: 0 <= i < |Required| ==> !Contains(doc, Required[i]);
    NoneFoundAllMissing(doc, 0);
    assert Required[0..] == Required;
  }

  /** A list document holding every field name passes the field check and
      then fails on the first field lookup. */
  lemma ListWithFieldNames(sha256: string -> string)
    ensures Verify(Json(Arr([Str("timestamp"), Str("model"), Str("prompt"), Str("response"), Str("hash")])), sha256)
         == Malformed(NotAnObject)
  {
    var doc := Arr([Str("timestamp"), Str("model"), Str("prompt"), Str("response"), Str("hash")]);
    assert forall i :: 0 <= i < |Required| ==> Contains(doc, Required[i]);
    assert MissingFields(doc) == [];
  }

  /** A string document is never a receipt: `in` on a string tests for a
      substring, so when every field name occurs in it the field check
      passes and the first field lookup fails; otherwise the names that do
      not occur are reported missing. */
  lemma StringDocument(s: string, sha256: string -> string)
    ensures Occurs("timestamp", s) && Occurs("model", s) && Occurs("prompt", s)
            && Occurs("response", s) && Occurs("hash", s)
            ==> Verify(Json(Str(s)), sha256) == Malformed(NotAnObject)
    ensures forall f :: f in Required && !Occurs(f, s) ==>
              Verify(Json(Str(s)), sha256).Malformed? && Verify(Json(Str(s)), sha256).reason.Missing?
              && f in Verify(Json(Str(s)), sha256).reason.names
  {
    var doc := Str(s);
    if Contains(doc, "timestamp") && Contains(doc, "model") && Contains(doc, "prompt")
       && Contains(doc, "response") && Contains(doc, "hash") {
      assert MissingFields(doc) == [];
    }
  }
}
