/**
 * The validator: five independent scans over the finished record list, each
 * collecting one error per violating record, in index order. The run passes
 * exactly when no scan reported anything.
 */
module Validation {
  import opened Text
  import opened Extraction

  /** The five checks, in the order the script runs them. */
  datatype Rule = PriceNonNegative | TitleNotEmpty | RatingValid | AvailabilityFormat | CategoryNotEmpty

  /** Availability values accepted without trying `int()`. */
  const AvailabilitySentinels: set<string> := {NA, "Yes", "0"}

  /** The record fails the check. */
  predicate Violates(rule: Rule, r: Record) {
    match rule
    case PriceNonNegative => r.price < 0.0
    case TitleNotEmpty => Strip(r.title) == []
    case RatingValid => r.starRating !in ValidRatings
    case AvailabilityFormat => r.availability !in AvailabilitySentinels && !IntParses(r.availability)
    case CategoryNotEmpty => Strip(r.category) == [] || r.category == NA
  }

  /**
   * One entry of the error list: which check failed, at which index, on
   * which record. The message text the script formats from these is not
   * modelled.
   */
  datatype ValidationError = ValidationError(rule: Rule, index: nat, item: Record)

  /** What one scan adds to the error list: the violating records, scanned by index. */
  function RuleErrors(rule: Rule, rs: seq<Record>): (es: seq<ValidationError>)
    ensures |es| <= |rs|
  {
    if rs == [] then []
    else
      var n := |rs| - 1;
      RuleErrors(rule, rs[..n]) + if Violates(rule, rs[n]) then [ValidationError(rule, n, rs[n])] else []
  }

  /** Every error a scan reports names a record that violates the rule, at its own index. */
  lemma {:induction false} RuleErrorsSound(rule: Rule, rs: seq<Record>)
    ensures forall e :: e in RuleErrors(rule, rs) ==>
              e.rule == rule && e.index < |rs| && e.item == rs[e.index] && Violates(rule, e.item)
  {
    if rs != [] {
      var n := |rs| - 1;
      RuleErrorsSound(rule, rs[..n]);
      assert forall i :: 0 <= i < n ==> rs[..n][i] == rs[i];
    }
  }

  /** Every record that violates the rule is reported by the scan. */
  lemma {:induction false} RuleErrorsComplete(rule: Rule, rs: seq<Record>)
    ensures forall i :: 0 <= i < |rs| && Violates(rule, rs[i]) ==> ValidationError(rule, i, rs[i]) in RuleErrors(rule, rs)
  {
    if rs != [] {
      var n := |rs| - 1;
      RuleErrorsComplete(rule, rs[..n]);
      assert forall i :: 0 <= i < n ==> rs[..n][i] == rs[i];
    }
  }

  /** Errors listed by strictly increasing record index. */
  predicate IndexOrdered(es: seq<ValidationError>) {
    forall a, b :: 0 <= a < b < |es| ==> es[a].index < es[b].index
  }

  /** A scan reports in index order, so never twice for the same record. */
  lemma {:induction false} RuleErrorsOrdered(rule: Rule, rs: seq<Record>)
    ensures IndexOrdered(RuleErrors(rule, rs))
  {
    if rs != [] {
      var n := |rs| - 1;
      var prev := RuleErrors(rule, rs[..n]);
      RuleErrorsOrdered(rule, rs[..n]);
      RuleErrorsSound(rule, rs[..n]);
      assert forall k :: 0 <= k < |prev| ==> prev[k] in prev && prev[k].index < n;
      var es := RuleErrors(rule, rs);
      if Violates(rule, rs[n]) {
        assert es == prev + [ValidationError(rule, n, rs[n])];
        forall a, b | 0 <= a < b < |es| ensures es[a].index < es[b].index {
          if b < |prev| {
            assert es[a] == prev[a] && es[b] == prev[b];
          } else {
            assert es[a] == prev[a] && es[b].index == n;
          }
        }
      } else {
        assert es == prev;
      }
    }
  }

  /** The whole error list: the five scans' errors, one scan after the other; at most five per record. */
  function AllErrors(rs: seq<Record>): (es: seq<ValidationError>)
    ensures |es| <= 5 * |rs|
  {
    RuleErrors(PriceNonNegative, rs) + RuleErrors(TitleNotEmpty, rs) + RuleErrors(RatingValid, rs)
    + RuleErrors(AvailabilityFormat, rs) + RuleErrors(CategoryNotEmpty, rs)
  }

  /** No record fails the check. */
  predicate Passes(rule: Rule, rs: seq<Record>) {
    forall i :: 0 <= i < |rs| ==> !Violates(rule, rs[i])
  }

  /** No record fails any check. */
  predicate AllValid(rs: seq<Record>) {
    Passes(PriceNonNegative, rs) && Passes(TitleNotEmpty, rs) && Passes(RatingValid, rs)
    && Passes(AvailabilityFormat, rs) && Passes(CategoryNotEmpty, rs)
  }

  /** A scan reports nothing exactly when its check passes on every record. */
  lemma RuleErrorsEmpty(rule: Rule, rs: seq<Record>)
    ensures RuleErrors(rule, rs) == [] <==> Passes(rule, rs)
  {
    RuleErrorsSound(rule, rs);
    RuleErrorsComplete(rule, rs);
    if RuleErrors(rule, rs) != [] {
      assert RuleErrors(rule, rs)[0] in RuleErrors(rule, rs);
    }
  }

  /** The overall verdict: all validations passed exactly when the error list is empty. */
  lemma PassedIffNoErrors(rs: seq<Record>)
    ensures AllErrors(rs) == [] <==> AllValid(rs)
  {
    RuleErrorsEmpty(PriceNonNegative, rs);
    RuleErrorsEmpty(TitleNotEmpty, rs);
    RuleErrorsEmpty(RatingValid, rs);
    RuleErrorsEmpty(AvailabilityFormat, rs);
    RuleErrorsEmpty(CategoryNotEmpty, rs);
    assert |AllErrors(rs)| == |RuleErrors(PriceNonNegative, rs)| + |RuleErrors(TitleNotEmpty, rs)|
      + |RuleErrors(RatingValid, rs)| + |RuleErrors(AvailabilityFormat, rs)| + |RuleErrors(CategoryNotEmpty, rs)|;
  }

  /** A scan reports every record when every record fails its check. */
  lemma {:induction false} AllViolatingAllReported(rule: Rule, rs: seq<Record>)
    requires forall i :: 0 <= i < |rs| ==> Violates(rule, rs[i])
    ensures |RuleErrors(rule, rs)| == |rs|
  {
    if rs != [] {
      var n := |rs| - 1;
      AllViolatingAllReported(rule, rs[..n]);
    }
  }

  /** Scanning one more record adds at most that record's error, at the end. */
  lemma ScanStep(rule: Rule, rs: seq<Record>, i: nat)
    requires i < |rs|
    ensures RuleErrors(rule, rs[..i + 1])
            == RuleErrors(rule, rs[..i]) + if Violates(rule, rs[i]) then [ValidationError(rule, i, rs[i])] else []
  {
    assert rs[..i + 1][..i] == rs[..i];
    assert rs[..i + 1][i] == rs[i];
  }

  /** One validation loop: appends the scan's errors and leaves everything else alone. */
  method ScanRule(rule: Rule, records: seq<Record>, errors: seq<ValidationError>) returns (out: seq<ValidationError>)
    ensures out == errors + RuleErrors(rule, records)
  {
    out := errors;
    for i := 0 to |records|
      invariant out == errors + RuleErrors(rule, records[..i])
    {
      ScanStep(rule, records, i);
      ghost var prev := out;
      if Violates(rule, records[i]) {
        out := out + [ValidationError(rule, i, records[i])];
      }
      assert out == prev + if Violates(rule, records[i]) then [ValidationError(rule, i, records[i])] else [];
    }
    assert records[..|records|] == records;
  }

  /** The validation phase: the five scans in order, then the verdict. */
  method Validate(records: seq<Record>) returns (errors: seq<ValidationError>, passed: bool)
    ensures errors == AllErrors(records)
    ensures passed <==> AllValid(records)
  {
    errors := [];
    errors := ScanRule(PriceNonNegative, records, errors);
    assert errors == RuleErrors(PriceNonNegative, records);
    errors := ScanRule(TitleNotEmpty, records, errors);
    errors := ScanRule(RatingValid, records, errors);
    errors := ScanRule(AvailabilityFormat, records, errors);
    errors := ScanRule(CategoryNotEmpty, records, errors);
    passed := errors == [];
    PassedIffNoErrors(records);
  }
}
