# PromptProof receipt verifier, modelled in Dafny

A PromptProof receipt is a JSON document with `timestamp`, `model`,
`prompt`, `response` and `hash`. Its `hash` is meant to be the hex SHA-256
digest of the four content fields joined with no separator. Receipts are
produced outside the code modelled here: the offline verifier
(`verify.py`) takes an existing receipt file, checks that the five fields
are present, recomputes the digest and compares it with the stored one. Its
command line turns the outcome into an exit status.

This project models that verifier as pure functions and proves properties
of them:

- `py_json.dfy` (module `PyJson`): decoded JSON values and Python's `in`
  operator on them. `in` behaves differently on a dict (keys), a list
  (elements) and a string (substrings), and it raises on numbers, booleans
  and null. The verifier uses `in` before it knows the document is a dict.
- `verify.dfy` (module `ReceiptVerifier`): the missing-field list, the hash
  input, the verdict (`Valid`, `Tampered` with both hashes, or `Malformed`
  with a reason), and the exit status of the command line.
- `verify_properties.dfy` (module `ReceiptProperties`): properties that
  relate several verifications. Examples: keys other than the five never
  matter, a missing field stops verification before any hashing, and field
  boundaries are invisible to the digest.

The SHA-256 hex digest is the parameter `sha256: string -> string`, so it
stays uninterpreted. Every result holds for every digest function. Where a
property needs two inputs to hash differently, that is a `requires`. What
happened to the file is the `Document` value: it was absent, unreadable, not
JSON, or decoded to a value. The command line gets a `load` parameter that
maps a path to its `Document`.

Two consequences of the code are worth stating:

- The stored `hash` is compared with `==` whatever its JSON type. So a
  non-string `hash` (a number, say) gives `Tampered`, not `Malformed`. Only
  non-string content fields fail (`NonStringField`).
- `in` is applied to whatever JSON value was decoded. A list or string
  document is therefore first checked for missing names, as elements or
  substrings. If none is missing, it fails at the first field lookup
  (`NotAnObject`). A number, boolean or null document fails at `in` itself.

Verification is deterministic by construction: `Verify` and `Run` are
mathematical functions of their arguments, so verifying the same document
twice with the same digest function gives the same verdict.

## Model

| member | source | states |
|---|---|---|
| `PyJson.OccursIff` | verify.py:40 | Python's `key in s` on strings (`Occurs`) holds exactly when `key` is a prefix of some suffix of `s`, i.e. a contiguous substring |
| `PyJson.SupportsIn` | verify.py:40 | `in` runs on a dict, a list or a string and raises a TypeError on a number, a boolean or null |
| `PyJson.Contains` | verify.py:40 | `key in v` decides key membership for a dict, the presence of the string `key` among the elements of a list, and occurrence of `key` as a substring at some position of a string |
| `ReceiptVerifier.Rank` | verify.py:39 | the required fields are timestamp, model, prompt, response, hash at positions 0 to 4; any other key has no position |
| `ReceiptVerifier.MissingFrom` | verify.py:39-40 | from a given position on, the list holds exactly the required fields `in` does not find; their positions strictly increase, so the list is in the fixed order and has no duplicates |
| `ReceiptVerifier.MissingFields` | verify.py:39-40 | the missing-field list is exactly the required fields absent from the document, in the order timestamp, model, prompt, response, hash, with no duplicates and at most five entries |
| `ReceiptVerifier.HashInput` | verify.py:47-52 | the hash input is the four fields placed one after the other, timestamp, model, prompt, response, with no separator: its length is the sum of theirs and each field sits at its offset |
| `ReceiptVerifier.ContentInput` | verify.py:47-53 | concatenating the four content values yields a string exactly when all four are strings; otherwise evaluation fails |
| `ReceiptVerifier.Verify` | verify.py:18-75 | for every document kind, the verdict: file not found, unreadable file, invalid JSON, `in` unsupported, some fields missing (listing exactly those, in the fixed order, without duplicates), not a dict, non-string content. The receipt is valid iff it is a dict with all fields and string content whose stored hash equals the recomputed digest. It is tampered iff they differ, and then it reports the stored and the computed hash |
| `ReceiptVerifier.Run` | verify.py:78-94 | the exit status is 0 or 1, and it is 0 iff exactly one argument is given and the document it names verifies as valid; any other argument count exits 1 |
| `ReceiptProperties.MissingFieldsStopVerification` | verify.py:42-44 | a document lacking a required field is malformed with the missing-field list, and its verdict is the same under any two digest functions: no hash is computed or compared |
| `ReceiptProperties.ValidIffDigestMatches` | verify.py:53-68 | with all fields present and string content, the receipt is valid iff the stored hash equals the digest of the concatenation exactly (case-sensitively); otherwise it is tampered and reports both hashes |
| `ReceiptProperties.MissingFromAgree` | verify.py:39-40 | dicts that agree on the presence and values of the five required keys have the same missing-field list |
| `ReceiptProperties.VerdictDependsOnlyOnRequired` | verify.py:39-58 | dicts that agree on the five required keys get the same verdict, whatever other keys they hold |
| `ReceiptProperties.ExtraKeyIgnored` | verify.py:39-58 | adding, changing or removing a non-required key such as `id` leaves the verdict unchanged |
| `ReceiptProperties.SameInputSameVerdict` | verify.py:47-58 | two receipts whose content fields concatenate to the same string and whose stored hashes are equal get the same verdict |
| `ReceiptProperties.FieldBoundaryCollision` | verify.py:47-52 | a receipt with content "ab", "c" and one with "a", "bc" (other fields equal) get the same verdict: field boundaries are not part of the hash input |
| `ReceiptProperties.EditedFieldChangesInput` | verify.py:47-52 | replacing one content field with a different string always changes the hash input, with no assumption about the digest |
| `ReceiptProperties.EditedFieldTampered` | verify.py:53-68 | changing one content field of a valid receipt makes it tampered, with the original hash as expected and the new digest as computed, whenever the digest separates the old and new hash inputs; since those inputs always differ, only a collision of SHA-256 itself goes undetected |
| `ReceiptProperties.WorkedExample` | verify.py:47-68 | the receipt "2025-01-01T00:00:00Z", "gpt-4o-mini", "2+2?", "4" with the digest of their concatenation verifies; with response "five" it is tampered, when the two digests differ |
| `ReceiptProperties.NoneFoundAllMissing` | verify.py:39-40 | when `in` finds no required field from a position on, all of them from there on are reported missing, in order |
| `ReceiptProperties.ListWithoutFieldNames` | verify.py:39-44 | a list document without the field names is malformed with all five fields missing |
| `ReceiptProperties.ListWithFieldNames` | verify.py:39-75 | a list document holding all five field names passes the field check and then fails as not a dict |
| `ReceiptProperties.StringDocument` | verify.py:39-75 | a string document in which all five names occur as substrings fails as not a dict; any name that does not occur is reported missing |

## Left out

- `app/main.py`: HTTP routing, the environment lookup of the API key and the call to the OpenAI client. These are foreign calls and I/O. No receipt is built, hashed or stored there, so there is no receipt logic to model.
- File existence, opening, UTF-8 decoding and `json.load`: only their outcome is modelled, as the `Document` cases `Absent`, `Unreadable`, `NotJson` and `Json`. JSON parsing itself (duplicate keys, number syntax) is not modelled.
- SHA-256, the UTF-8 encoding of the hash input and the hex encoding of the digest: all three are folded into the uninterpreted `sha256` parameter. So the 64-character lowercase-hex shape of a digest is not stated. Collision resistance is not assumed: tamper detection is proved only for edits that change the digest.
- Strings are sequences of Unicode scalar values, so a JSON string holding a lone surrogate escape cannot be represented. In the source, a lone surrogate in `timestamp`, `model`, `prompt` or `response` makes `.encode('utf-8')` raise, and the catch-all returns failure. Anywhere else (under `hash`, `id` or any other key) the source treats it like any other string.
- JSON numbers are integers in the model. The verifier never reads a number's value. A number document fails `in`. A number among the content fields makes the hash input fail: either `+` raises, or, when all four are numbers or booleans, it yields a number with no `encode`. A number under `hash` compares unequal to every digest. A number under any non-required key is ignored.
- The printed messages, the emoji and the echo of timestamp, model and hash on success are not modelled. `sys.exit` is replaced by the returned status.
- The catch-all `except Exception` path is modelled only for the errors the model can produce: `in` on a number, boolean or null, a field lookup on a list or string, and non-string content fields.
