# Phishing email detector, verified model

The repository's only logic is `phishing_detector` in `app/app.py`. It takes
the text of an email and lowercases it. It labels the text "Phishing" when
the lowercased text contains the substring "bank" or the substring "account".
Otherwise it labels it "Legitimate". Matching is plain substring containment,
with no tokenising and no word boundaries, so "embankment" counts as
containing "bank".

The model has two modules:

- `PyStr` (`pystr.dfy`) covers the two Python string built-ins the detector
  uses:
  - `str.lower()`, as `ToLower`, on ASCII letters;
  - the substring test `needle in hay`, as `Occurs`, a reference search that
    returns what `in` returns.

  The contract of `Occurs` proves it equal to the specification `Contains`,
  which says that some window of the haystack equals the needle.
  `ContainsIgnoringCase` states case-insensitive matching window by window,
  independent of the sequence-level `ToLower`.
- `App` (`app.dfy`) covers the detector:
  - a two-variant `Label`;
  - `Classify`, the decision on line 5, which searches the lowercased text for
    the two keywords;
  - `PhishingDetector`, which returns that decision as the text "Phishing" or
    "Legitimate";
  - lemmas that state what the classification means.

`phishing_detector` is a pure function with no state, so the whole model is
written as functions and lemmas.

## Model

| member | source | states |
|---|---|---|
| `PyStr.LowerChar` | app/app.py:5 | lowercasing one character leaves no ASCII capital; the result is either the character itself or, for an ASCII capital, its small letter |
| `PyStr.ToLower` | app/app.py:5 | `lower()` keeps the length, lowercases every position, and leaves no ASCII capital in the result |
| `PyStr.ToLowerIdempotent` | app/app.py:5 | lowercasing an already lowercased text changes nothing |
| `PyStr.ToLowerSlice` | app/app.py:5 | lowercasing a contiguous piece of a text gives the same piece of the lowercased text |
| `PyStr.Contains` | app/app.py:5 | the specification of `in`: a contained needle is never longer than the haystack, and a prefix (the empty needle among them) is always contained |
| `PyStr.Occurs` | app/app.py:5 | the reference search returns true exactly when the needle is a window of the haystack (`Contains`), in both directions |
| `PyStr.ContainsInTail` | app/app.py:5 | a needle that is not a prefix of a non-empty haystack is contained in it exactly when it is contained in its tail |
| `PyStr.WindowShift` | app/app.py:5 | dropping the first character of the haystack moves every window of the needle one place to the left |
| `PyStr.ContainsInfix` | app/app.py:5 | a needle is contained in any text built as prefix + needle + suffix |
| `PyStr.ContainsTransitive` | app/app.py:5 | containment is transitive: a substring of a substring is a substring |
| `PyStr.ContainsFirstChar` | app/app.py:5 | a non-empty needle occurs only in a text that contains its first character |
| `PyStr.LowerContainsIffIgnoringCase` | app/app.py:5 | the lowercased text contains the needle exactly when some window of the original text matches it character by character up to case |
| `App.LabelText` | app/app.py:6-8 | the returned text is "Phishing" exactly for the Phishing label and "Legitimate" exactly for the Legitimate label |
| `App.Classify` | app/app.py:5-8 | a text is Phishing exactly when its lowercased form contains "bank" or "account", and Legitimate exactly when it contains neither |
| `App.PhishingDetector` | app/app.py:3-8 | the detector returns "Phishing" or "Legitimate" and nothing else; "Phishing" exactly when a keyword occurs after lowercasing, "Legitimate" exactly when neither does |
| `App.ClassifyIgnoringCase` | app/app.py:5-6 | a text is Phishing exactly when some window of it spells "bank" or "account" in any mix of upper and lower case |
| `App.ClassifyCaseInsensitive` | app/app.py:5 | a text and its lowercased form get the same label |
| `App.EmptyIsLegitimate` | app/app.py:5-8 | the empty text is Legitimate |
| `App.ClassifyMonotone` | app/app.py:5-6 | a text that contains a Phishing text as a contiguous piece is Phishing too |
| `App.EmbeddedKeywordIsPhishing` | app/app.py:5-6 | any text with "bank" or "account" embedded in it, in any case and with anything around it, is Phishing |
| `App.EmbankmentIsPhishing` | app/app.py:5-6 | "embankment" is Phishing, because matching ignores word boundaries |
| `App.CapitalBankIsPhishing` | app/app.py:5-6 | "BANK" is Phishing, like "bank" |
| `App.SavingsAccountIsPhishing` | app/app.py:5-6 | "my savings account is secure" is Phishing |
| `App.NoKeywordInitialIsLegitimate` | app/app.py:5-8 | a text with no 'a', 'A', 'b' or 'B' is Legitimate |
| `App.HelloWorldIsLegitimate` | app/app.py:7-8 | "hello world" is Legitimate |

## Left out

- `PyStr.ToLower`: lowercases ASCII letters only. Python's `str.lower()` applies full Unicode case mapping, which has script-specific rules and can change a string's length. In this model every non-ASCII character is left unchanged. This changes the verdict where a non-ASCII character lowercases to an ASCII keyword letter: U+212A KELVIN SIGN lowercases to 'k' in Python, so "BAN\u212A" is Phishing in the source but Legitimate in the model.
- `PyStr.LowerChar`: the same ASCII-only restriction, one character at a time. U+212A KELVIN SIGN is left unchanged instead of becoming 'k'.
- The `gr.Interface` construction and `iface.launch()` (app/app.py:1, 10-17). This is user-interface and web-server plumbing provided by the external gradio library. gradio is not part of this model.
- Non-string input, such as `None`, which makes `.lower()` raise `AttributeError`. The typed `string` parameter rules it out. The source raises no error of its own here and does no validation, so the model has no error path.
- A trained phishing model. The source marks its logic as a dummy placeholder, and nothing beyond the keyword test exists.
- Determinism, meaning repeated calls give the same label. This holds because every member is a mathematical function, so there is no separate lemma for it.
