/**
 * The phishing detector of app/app.py: lowercase the email text and label it
 * "Phishing" when it contains "bank" or "account" anywhere (plain substring
 * containment, no word boundaries), "Legitimate" otherwise.
 */
module App {
  import opened PyStr

  /** The two outcomes of a classification. */
  datatype Label = Phishing | Legitimate

  /** The first keyword the detector looks for. */
  const BankWord: string := "bank"

  /** The second keyword the detector looks for. */
  const AccountWord: string := "account"

  /** The text the detector returns for a label; the two texts are distinct. */
  function LabelText(l: Label): (r: string)
    ensures r == "Phishing" <==> l == Phishing
    ensures r == "Legitimate" <==> l == Legitimate
  {
    match l
    case Phishing => "Phishing"
    case Legitimate => "Legitimate"
  }

  /**
   * The decision of `phishing_detector`: search the lowercased text for either
   * keyword. A text is phishing exactly when its lowercased form contains
   * "bank" or "account", and legitimate exactly when it contains neither.
   */
  function Classify(emailText: string): (r: Label)
    ensures r == Phishing
        <==> Contains(ToLower(emailText), BankWord) || Contains(ToLower(emailText), AccountWord)
    ensures r == Legitimate
        <==> !Contains(ToLower(emailText), BankWord) && !Contains(ToLower(emailText), AccountWord)
  {
    var lower := ToLower(emailText);
    if Occurs(lower, BankWord) || Occurs(lower, AccountWord) then Phishing else Legitimate
  }

  /**
   * `phishing_detector` itself: the label as the text the function returns,
   * "Phishing" when a keyword occurs after lowercasing and "Legitimate" when
   * neither does, never anything else.
   */
  function PhishingDetector(emailText: string): (r: string)
    ensures r == "Phishing" || r == "Legitimate"
    ensures r == "Phishing"
        <==> Contains(ToLower(emailText), BankWord) || Contains(ToLower(emailText), AccountWord)
    ensures r == "Legitimate"
        <==> !Contains(ToLower(emailText), BankWord) && !Contains(ToLower(emailText), AccountWord)
  {
    LabelText(Classify(emailText))
  }

  /**
   * The classification stated without lowercasing the text first: a text is
   * phishing exactly when some window of it spells "bank" or "account" in any
   * mix of upper and lower case.
   */
  lemma ClassifyIgnoringCase(emailText: string)
    ensures Classify(emailText) == Phishing
        <==> ContainsIgnoringCase(emailText, BankWord) || ContainsIgnoringCase(emailText, AccountWord)
  {
    LowerContainsIffIgnoringCase(emailText, BankWord);
    LowerContainsIffIgnoringCase(emailText, AccountWord);
  }

  /** Case does not matter: a text and its lowercased form get the same label. */
  lemma ClassifyCaseInsensitive(emailText: string)
    ensures Classify(ToLower(emailText)) == Classify(emailText)
  {
  }

  /** The empty text is legitimate. */
  lemma EmptyIsLegitimate()
    ensures Classify("") == Legitimate
  {
  }

  /**
   * Labels only grow under extension: a text that contains a phishing text
   * as a contiguous piece is phishing too.
   */
  lemma ClassifyMonotone(piece: string, emailText: string)
    requires Contains(emailText, piece) && Classify(piece) == Phishing
    ensures Classify(emailText) == Phishing
  {
    var i :| WindowAt(emailText, piece, i);
    ToLowerSlice(emailText, i, i + |piece|);
    assert WindowAt(ToLower(emailText), ToLower(piece), i);
    if Contains(ToLower(piece), BankWord) {
      ContainsTransitive(ToLower(emailText), ToLower(piece), BankWord);
    } else {
      ContainsTransitive(ToLower(emailText), ToLower(piece), AccountWord);
    }
  }

  /**
   * Matching is by substring, not by word: any text with a keyword embedded
   * in it, whatever surrounds it, is phishing.
   */
  lemma EmbeddedKeywordIsPhishing(prefix: string, keyword: string, suffix: string)
    requires ToLower(keyword) == BankWord || ToLower(keyword) == AccountWord
    ensures Classify(prefix + keyword + suffix) == Phishing
  {
    ContainsInfix([], ToLower(keyword), []);
    assert [] + ToLower(keyword) + [] == ToLower(keyword);
    ContainsInfix(prefix, keyword, suffix);
    ClassifyMonotone(keyword, prefix + keyword + suffix);
  }

  /** "embankment" is phishing: the keyword need not be a word of its own. */
  lemma EmbankmentIsPhishing()
    ensures Classify("embankment") == Phishing
  {
  }

  /** "BANK" in capitals is phishing, like "bank". */
  lemma CapitalBankIsPhishing()
    ensures Classify("BANK") == Phishing
  {
  }

  /** A sentence that mentions an account is phishing. */
  lemma SavingsAccountIsPhishing()
    ensures Classify("my savings account is secure") == Phishing
  {
    var text := "my savings account is secure";
    assert WindowAt(text, AccountWord, 11);
    ClassifyMonotone(AccountWord, text);
  }

  /**
   * A text with no 'b' and no 'a' in either case, the first letters of the
   * two keywords, is legitimate.
   */
  lemma NoKeywordInitialIsLegitimate(emailText: string)
    requires 'b' !in emailText && 'B' !in emailText
    requires 'a' !in emailText && 'A' !in emailText
    ensures Classify(emailText) == Legitimate
  {
    var lower := ToLower(emailText);
    assert 'b' !in lower && 'a' !in lower by {
      forall i | 0 <= i < |lower| ensures lower[i] != 'b' && lower[i] != 'a' {
        assert lower[i] == LowerChar(emailText[i]);
      }
    }
    if Contains(lower, BankWord) {
      ContainsFirstChar(lower, BankWord);
      assert false;
    }
    if Contains(lower, AccountWord) {
      ContainsFirstChar(lower, AccountWord);
      assert false;
    }
  }

  /** "hello world" mentions neither keyword and is legitimate. */
  lemma HelloWorldIsLegitimate()
    ensures Classify("hello world") == Legitimate
  {
    NoKeywordInitialIsLegitimate("hello world");
  }
}
