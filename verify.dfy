/** The offline receipt verifier: it checks that a receipt document carries
    the five required fields, recomputes the digest of its four content
    fields joined with no separator, and compares it with the stored `hash`.
    The SHA-256 hex digest is a parameter `sha256` that nothing here
    interprets; the outcome of locating, reading and decoding the file is a
    `Document`. */
module ReceiptVerifier {
  import opened PyJson

  /** The fields every receipt must carry, in the order they are checked and
      reported. */
  const Required: seq<string> := ["timestamp", "model", "prompt", "response", "hash"]

  /** The position of a field in `Required`; `|Required|` for any other key. */
  function Rank(f: string): (r: nat)
    ensures r <= |Required|
    ensures r < |Required| <==> f in Required
    ensures r < |Required| ==> Required[r] == f
  {
    if f == "timestamp" then 0
    else if f == "model" then 1
    else if f == "prompt" then 2
    else if f == "response" then 3
    else if f == "hash" then 4
    else 5
  }

  /** What became of the path the verifier was given, up to the decoded JSON
      value: it did not exist, it could not be opened or decoded as UTF-8
      text, it was not JSON, or it decoded to a value. */
  datatype Document = Absent | Unreadable | NotJson | Json(value: Value)

  /** Why a document is malformed. `NotAnObject` is the TypeError raised when
      the decoded value is not a dict; `NonStringField` is the failure to
      build a string from content fields that are not all strings. */
  datatype Reason =
    | FileNotFound
    | ReadError
    | InvalidJson
    | Missing(names: seq<string>)
    | NotAnObject
    | NonStringField

  /** The verifier's decision. A tampered receipt reports the stored hash
      value and the digest the verifier computed. */
  datatype Verdict = Valid | Tampered(expected: Value, computed: string) | Malformed(reason: Reason)

  /** The required fields from position `k` on that `key in v` does not find,
      in the order of `Required`. */
  function MissingFrom(v: Value, k: nat): (r: seq<string>)
    requires SupportsIn(v) && k <= |Required|
    ensures forall f :: f in r <==> f in Required[k..] && !Contains(v, f)
    ensures forall i :: 0 <= i < |r| ==> k <= Rank(r[i]) < |Required|
    ensures forall i, j :: 0 <= i < j < |r| ==> Rank(r[i]) < Rank(r[j])
    ensures |r| <= |Required| - k
    decreases |Required| - k
  {
    if k == |Required| then []
    else
      var rest := MissingFrom(v, k + 1);
      assert Required[k..] == [Required[k]] + Required[k + 1..];
      assert Rank(Required[k]) == k;
      if Contains(v, Required[k]) then rest else [Required[k]] + rest
  }

  /** The list of missing fields: exactly the required fields the document
      lacks, each once, in the order timestamp, model, prompt, response,
      hash. */
  function MissingFields(v: Value): (r: seq<string>)
    requires SupportsIn(v)
    ensures forall f :: f in r <==> f in Required && !Contains(v, f)
    ensures forall i, j :: 0 <= i < j < |r| ==> Rank(r[i]) < Rank(r[j])
    ensures |r| <= |Required|
  {
    var r := MissingFrom(v, 0);
    assert Required[0..] == Required;
    r
  }

  /** The string the digest is taken over: the four content fields joined in
      the order timestamp, model, prompt, response, with no separator and no
      length prefix. */
  function HashInput(timestamp: string, model: string, prompt: string, response: string): (r: string)
    ensures |r| == |timestamp| + |model| + |prompt| + |response|
    ensures r[..|timestamp|] == timestamp
    ensures r[|timestamp|..|timestamp| + |model|] == model
    ensures r[|timestamp| + |model|..|timestamp| + |model| + |prompt|] == prompt
    ensures r[|timestamp| + |model| + |prompt|..] == response
  {
    timestamp + model + prompt + response
  }

  /** A dict that carries all five required keys. */
  predicate HasRequired(receipt: map<string, Value>) {
    && "timestamp" in receipt && "model" in receipt && "prompt" in receipt
    && "response" in receipt && "hash" in receipt
  }

  /** A receipt dict the verifier gets as far as hashing: all five required
      keys are present and the four content fields are strings. */
  predicate Hashable(receipt: map<string, Value>) {
    && HasRequired(receipt)
    && receipt["timestamp"].Str? && receipt["model"].Str?
    && receipt["prompt"].Str? && receipt["response"].Str?
  }

  /** The hash input of a hashable receipt. */
  function ReceiptInput(receipt: map<string, Value>): string
    requires Hashable(receipt)
  {
    HashInput(receipt["timestamp"].text, receipt["model"].text,
              receipt["prompt"].text, receipt["response"].text)
  }

  /** `timestamp + model + prompt + response` on the dict's values: a string
      exactly when all four values are strings; otherwise Python's `+` raises
      a TypeError, or yields a list or a number that has no `encode`, and
      either way the verifier's catch-all turns it into a failure. */
  function ContentInput(receipt: map<string, Value>): (r: Option<string>)
    requires HasRequired(receipt)
    ensures r.Some? <==> Hashable(receipt)
    ensures r.Some? ==> r.value == ReceiptInput(receipt)
  {
    match (receipt["timestamp"], receipt["model"], receipt["prompt"], receipt["response"])
    case (Str(t), Str(m), Str(p), Str(q)) => Some(HashInput(t, m, p, q))
    case _ => None
  }

  /** The whole decision of the verifier for one document, given the digest
      function. */
  function Verify(doc: Document, sha256: string -> string): (r: Verdict)
    ensures doc.Absent? ==> r == Malformed(FileNotFound)
    ensures doc.Unreadable? ==> r == Malformed(ReadError)
    ensures doc.NotJson? ==> r == Malformed(InvalidJson)
    ensures doc.Json? && !SupportsIn(doc.value) ==> r == Malformed(NotAnObject)
    ensures r.Malformed? && r.reason.Missing? <==>
              doc.Json? && SupportsIn(doc.value) && exists f :: f in Required && !Contains(doc.value, f)
    ensures r.Malformed? && r.reason.Missing? ==>
              doc.Json? && SupportsIn(doc.value) && r.reason.names == MissingFields(doc.value)
    ensures r.Malformed? && r.reason.NotAnObject? <==>
              doc.Json? && !doc.value.Obj? && (SupportsIn(doc.value) ==> MissingFields(doc.value) == [])
    ensures r.Malformed? && r.reason.NonStringField? <==>
              doc.Json? && doc.value.Obj? && HasRequired(doc.value.fields) && !Hashable(doc.value.fields)
    ensures r.Valid? <==>
              doc.Json? && doc.value.Obj? && Hashable(doc.value.fields)
              && doc.value.fields["hash"] == Str(sha256(ReceiptInput(doc.value.fields)))
    ensures r.Tampered? <==>
              doc.Json? && doc.value.Obj? && Hashable(doc.value.fields)
              && doc.value.fields["hash"] != Str(sha256(ReceiptInput(doc.value.fields)))
    ensures r.Tampered? ==>
              r.expected == doc.value.fields["hash"]
              && r.computed == sha256(ReceiptInput(doc.value.fields))
  {
    match doc
    case Absent => Malformed(FileNotFound)
    case Unreadable => Malformed(ReadError)
    case NotJson => Malformed(InvalidJson)
    case Json(v) =>
      if !SupportsIn(v) then Malformed(NotAnObject)
      else
        var missing := MissingFields(v);
        if missing != [] then Malformed(Missing(missing))
        else
          assert forall f :: f in Required ==> Contains(v, f);
          if !v.Obj? then Malformed(NotAnObject)
          else
            assert Required[0] in Required && Required[1] in Required && Required[2] in Required;
            assert Required[3] in Required && Required[4] in Required;
            match ContentInput(v.fields)
            case None => Malformed(NonStringField)
            case Some(input) =>
              var computed := sha256(input);
              var stored := v.fields["hash"];
              if stored == Str(computed) then Valid else Tampered(stored, computed)
  }

  /** The verifier's command line: `argv` holds the program name and the
      arguments, `load` tells what reading a path yields. Exactly one
      argument is accepted; the exit status is 0 for a valid receipt and 1
      for every other outcome, including a usage error. */
  function Run(argv: seq<string>, load: string -> Document, sha256: string -> string): (code: int)
    ensures code == 0 || code == 1
    ensures code == 0 <==> |argv| == 2 && Verify(load(argv[1]), sha256).Valid?
    ensures |argv| != 2 ==> code == 1
  {
    if |argv| != 2 then 1
    else if Verify(load(argv[1]), sha256).Valid? then 0
    else 1
  }
}
