/** The canonical spelling of a sub-category (`normalizeCategorizationSubCategory`). */
module SubCategories {
  import opened Ascii

  // Lower-cased spellings and the names they stand for.
  const ALIASES: map<string, string> := map[
    "loan advanced or receivable" := "Loan Given Out",
    "loan received" := "Loan Borrowed",
    "loan principal repayment" := "Loan Repaid",
    "loan given out" := "Loan Given Out",
    "loan repayment received" := "Loan Repayment Received",
    "loan borrowed" := "Loan Borrowed",
    "loan repaid" := "Loan Repaid",
    "salary and wages" := "Salaries & Wages",
    "salaries & wages" := "Salaries & Wages",
    "wages & salaries" := "Salaries & Wages",
    "airtime/internet subscription" := "Airtime/Data Subscription",
    "airtime/data subscription" := "Airtime/Data Subscription",
    "utility bill (light, water, waste etc.)" := "Utlity Bill (Light, Water, Waste etc.)",
    "utlity bill (light, water, waste etc.)" := "Utlity Bill (Light, Water, Waste etc.)",
    "subscriptions" := "Subscription - Capcut, Captions etc.",
    "software subscription" := "Subscription - Capcut, Captions etc.",
    "subscription - capcut, captions etc." := "Subscription - Capcut, Captions etc.",
    "personal use" := "Personal Use",
    "owner withdrawal (for personal use)" := "Personal Use"]

  function Normalize(value: string): string {
    var trimmed := Trim(value);
    if Lower(trimmed) in ALIASES then ALIASES[Lower(trimmed)] else trimmed
  }

  // A name of the table is trimmed, and its lower-cased spelling stands for it.
  ghost predicate IsCanonical(name: string) {
    IsTrimmed(name) && Lower(name) in ALIASES && ALIASES[Lower(name)] == name
  }

  lemma LoansInLowerCase()
    ensures Lower("Loan Given Out") == "loan given out" && Lower("Loan Borrowed") == "loan borrowed"
    ensures Lower("Loan Repaid") == "loan repaid" && Lower("Loan Repayment Received") == "loan repayment received"
  {
  }

  lemma ExpensesInLowerCase()
    ensures Lower("Salaries & Wages") == "salaries & wages" && Lower("Personal Use") == "personal use"
    ensures Lower("Airtime/Data Subscription") == "airtime/data subscription"
  {
  }

  lemma UtilityInLowerCase()
    ensures Lower("Utlity Bill (Light, Water, Waste etc.)") == "utlity bill (light, water, waste etc.)"
  {
  }

  lemma SubscriptionInLowerCase()
    ensures Lower("Subscription - Capcut, Captions etc.") == "subscription - capcut, captions etc."
  {
  }

  lemma LoansAreCanonical()
    ensures IsCanonical("Loan Given Out") && IsCanonical("Loan Borrowed")
    ensures IsCanonical("Loan Repaid") && IsCanonical("Loan Repayment Received")
  {
    hide Lower;
    LoansInLowerCase();
  }

  lemma ExpensesAreCanonical()
    ensures IsCanonical("Salaries & Wages") && IsCanonical("Personal Use")
    ensures IsCanonical("Airtime/Data Subscription")
  {
    hide Lower;
    ExpensesInLowerCase();
  }

  lemma LongNamesAreCanonical()
    ensures IsCanonical("Utlity Bill (Light, Water, Waste etc.)")
    ensures IsCanonical("Subscription - Capcut, Captions etc.")
  {
    hide Lower;
    UtilityInLowerCase();
    SubscriptionInLowerCase();
  }

  lemma {:induction false} NamesAreCanonical(k: string)
    requires k in ALIASES
    ensures IsCanonical(ALIASES[k])
  {
    hide IsCanonical;
    LoansAreCanonical();
    ExpensesAreCanonical();
    LongNamesAreCanonical();
  }

  lemma {:induction false} NormalizeTwice(value: string)
    ensures Normalize(Normalize(value)) == Normalize(value)
  {
    hide ALIASES, Lower, IsSpace;
    var trimmed := Trim(value);
    if Lower(trimmed) in ALIASES {
      NamesAreCanonical(Lower(trimmed));
    } else {
      TrimTrims(value);
    }
    TrimmedStays(Normalize(value));
  }

  lemma {:induction false} TrimmedStays(s: string)
    requires IsTrimmed(s)
    ensures Trim(s) == s
  {
  }

  // Blanks around a sub-category never matter.
  lemma {:induction false} BlanksDoNotMatter(before: string, value: string, after: string)
    requires AllSpace(before) && AllSpace(after)
    ensures Normalize(before + value + after) == Normalize(value)
  {
    hide ALIASES, Lower, Trim;
    TrimIgnoresBlanks(before, value, after);
  }

  // Letter case does not matter in a spelling that stands for a name; any other spelling is only trimmed.
  lemma {:induction false} CaseDoesNotMatter(a: string, b: string)
    requires SameUpToCase(Trim(a), Trim(b)) && Normalize(a) != Trim(a)
    ensures Normalize(b) == Normalize(a) && Normalize(a) in ALIASES.Values
  {
    hide Trim, Lower;
    CasesDecide(Trim(a), Trim(b));
  }
}
