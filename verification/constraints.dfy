/** internal/constraints: the typed stateless constraints carried by grants and leases. */
module Constraints {
  import opened Wrappers
  import opened Text

  type ConstraintMap = map<string, string>

  const MAX_CONSTRAINTS := 16
  const CEILING := "max_transaction_minor_units"
  const AMOUNT_LIMIT: nat := 0x8000_0000_0000_0000  // two to the power 63

  predicate IsDigit(c: char) {
    '0' <= c <= '9'
  }

  predicate AllDigits(s: string) {
    forall c | c in s :: IsDigit(c)
  }

  function DecimalValue(s: string): nat
    requires AllDigits(s)
  {
    if s == "" then 0
    else
      assert IsDigit(s[|s| - 1]);
      DecimalValue(s[..|s| - 1]) * 10 + (s[|s| - 1] as nat - '0' as nat)
  }

  /** strconv.ParseUint(s, 10, 63) */
  function ParseUint(s: string): Option<nat> {
    if s != "" && AllDigits(s) && DecimalValue(s) < AMOUNT_LIMIT then Some(DecimalValue(s)) else None
  }

  /** strconv.FormatUint(n, 10) */
  function FormatUint(n: nat): string {
    if n < 10 then [('0' as nat + n) as char]
    else FormatUint(n / 10) + [('0' as nat + n % 10) as char]
  }

  predicate ValidEntry(key: string, value: string) {
    && value != "" && ByteLen(value) <= 256 && Trimmed(value)
    && (|| key in {"environment", "repository", "branch"}
        || (key == "http_method" && value == UpperForm(value) && ByteLen(value) <= 16)
        || (key == CEILING && CeilingOk(value)))
  }

  /** A positive amount below the limit, in its one decimal form. */
  predicate CeilingOk(value: string) {
    ParseUint(value).Some? && ParseUint(value).value != 0 && FormatUint(ParseUint(value).value) == value
  }

  predicate Valid(values: ConstraintMap) {
    |values| <= MAX_CONSTRAINTS && forall key | key in values :: ValidEntry(key, values[key])
  }

  /** One constraint compared. In AtLeastAsStrong both texts are valid, so parsing cannot fail there. */
  predicate EntryAtLeastAsStrong(key: string, parentValue: string, childValue: string) {
    if key == CEILING then
      ParseUint(parentValue).Some? && ParseUint(childValue).Some?
      && ParseUint(childValue).value <= ParseUint(parentValue).value
    else childValue == parentValue
  }

  predicate AtLeastAsStrong(parent: ConstraintMap, child: ConstraintMap) {
    && Valid(parent) && Valid(child)
    && forall key | key in parent :: key in child && EntryAtLeastAsStrong(key, parent[key], child[key])
  }

  predicate Equal(left: ConstraintMap, right: ConstraintMap) {
    |left| == |right| && AtLeastAsStrong(left, right) && AtLeastAsStrong(right, left)
  }

  predicate Satisfied(required: ConstraintMap, actual: ConstraintMap) {
    && Valid(required)
    && forall key | key in required :: key in actual && EntryAtLeastAsStrong(key, required[key], actual[key])
  }

  // ---- Meaning ----

  /** Attenuation of constraints is exactly inclusion of the contexts they admit. */
  lemma StrengthIsInclusion(parent: ConstraintMap, child: ConstraintMap)
    requires Valid(parent) && Valid(child)
    ensures AtLeastAsStrong(parent, child)
            <==> forall actual: ConstraintMap :: Satisfied(child, actual) ==> Satisfied(parent, actual)
  {
    if AtLeastAsStrong(parent, child) {
      forall actual: ConstraintMap | Satisfied(child, actual) ensures Satisfied(parent, actual) {
      }
    }
    SatisfiesItself(child);
  }

  /** A decimal text that states an amount no larger than another one states. */
  predicate StatesAtMost(limit: string, amount: string) {
    && limit != "" && AllDigits(limit) && amount != "" && AllDigits(amount)
    && DecimalValue(amount) <= DecimalValue(limit)
  }

  /** What a context must state, entry by entry: the amount at most the ceiling, every other text the same. */
  predicate Fulfils(required: ConstraintMap, actual: ConstraintMap) {
    forall key | key in required ::
      key in actual && if key == CEILING then StatesAtMost(required[key], actual[key]) else actual[key] == required[key]
  }

  lemma ValidCeiling(values: ConstraintMap)
    requires Valid(values) && CEILING in values
    ensures values[CEILING] != "" && AllDigits(values[CEILING]) && 0 < DecimalValue(values[CEILING]) < 0x8000_0000_0000_0000
  {
    assert ValidEntry(CEILING, values[CEILING]);
  }

  /** A context satisfies valid constraints exactly when it states what they require: an amount up to the ceiling,
      as numbers, and equal text otherwise. */
  lemma SatisfiedExactly(required: ConstraintMap, actual: ConstraintMap)
    requires Valid(required)
    ensures Satisfied(required, actual) <==> Fulfils(required, actual)
  {
    if CEILING in required {
      ValidCeiling(required);
    }
  }

  /** And a valid child is at least as strong as a valid parent exactly when it states what the parent requires. */
  lemma StrengthExactly(parent: ConstraintMap, child: ConstraintMap)
    requires Valid(parent) && Valid(child)
    ensures AtLeastAsStrong(parent, child) <==> Fulfils(parent, child)
  {
    if CEILING in parent {
      ValidCeiling(parent);
    }
    if CEILING in child {
      ValidCeiling(child);
    }
  }

  /** A concrete pair: under a ceiling of 100 an amount of 100 passes and 5000 does not. */
  lemma CeilingExample()
    ensures Satisfied(map[CEILING := FormatUint(100)], map[CEILING := FormatUint(100)])
    ensures !Satisfied(map[CEILING := FormatUint(100)], map[CEILING := FormatUint(5000)])
  {
    FormatThenParse(100);
    FormatThenParse(5000);
    CeilingsAreDecimalForms(FormatUint(100));
    SatisfiedExactly(map[CEILING := FormatUint(100)], map[CEILING := FormatUint(100)]);
    SatisfiedExactly(map[CEILING := FormatUint(100)], map[CEILING := FormatUint(5000)]);
  }

  /** The vocabulary is closed: nothing but the five keys, each with a trimmed text of its size. */
  lemma ValidVocabulary(values: ConstraintMap, key: string)
    requires Valid(values) && key in values
    ensures |values| <= 16 && values[key] != "" && ByteLen(values[key]) <= 256 && Trimmed(values[key])
    ensures key in {"environment", "repository", "branch", "http_method", "max_transaction_minor_units"}
    ensures key == "http_method" ==> values[key] == UpperForm(values[key]) && ByteLen(values[key]) <= 16
  {
    assert ValidEntry(key, values[key]);
  }

  lemma SatisfiesItself(values: ConstraintMap)
    requires Valid(values)
    ensures Satisfied(values, values)
  {
    forall key | key in values ensures EntryAtLeastAsStrong(key, values[key], values[key]) {
      assert ValidEntry(key, values[key]);
    }
  }

  /** Equal, defined by two attenuations, is literal equality of valid maps. */
  lemma EqualIsEquality(left: ConstraintMap, right: ConstraintMap)
    ensures Equal(left, right) <==> Valid(left) && left == right
  {
    if Equal(left, right) {
      assert left.Keys == right.Keys;
      forall key | key in left ensures left[key] == right[key] {
        assert ValidEntry(key, left[key]) && ValidEntry(key, right[key]);
        assert EntryAtLeastAsStrong(key, left[key], right[key]) && EntryAtLeastAsStrong(key, right[key], left[key]);
      }
    }
    if Valid(left) && left == right {
      SatisfiesItself(left);
    }
  }

  lemma StrengthIsPartialOrder(a: ConstraintMap, b: ConstraintMap, c: ConstraintMap)
    ensures Valid(a) ==> AtLeastAsStrong(a, a)
    ensures AtLeastAsStrong(a, b) && AtLeastAsStrong(b, a) ==> a == b
    ensures AtLeastAsStrong(a, b) && AtLeastAsStrong(b, c) ==> AtLeastAsStrong(a, c)
  {
    if Valid(a) {
      SatisfiesItself(a);
    }
    if AtLeastAsStrong(a, b) && AtLeastAsStrong(b, a) {
      assert a.Keys == b.Keys;
      EqualIsEquality(a, b);
    }
  }

  // ---- Decimal text ----

  lemma {:induction false} FormatThenParse(n: nat)
    ensures FormatUint(n) != "" && AllDigits(FormatUint(n)) && DecimalValue(FormatUint(n)) == n
  {
    if n >= 10 {
      FormatThenParse(n / 10);
      var front := FormatUint(n / 10);
      assert FormatUint(n)[..|FormatUint(n)| - 1] == front;
    }
  }

  lemma {:induction false} FormatByteLen(n: nat, digits: nat)
    requires digits >= 1 && n < Power10(digits)
    ensures ByteLen(FormatUint(n)) <= digits
  {
    if n < 10 {
      ByteLenAppend("", ('0' as nat + n) as char);
      assert FormatUint(n) == "" + [('0' as nat + n) as char];
    } else {
      assert digits > 1;
      FormatByteLen(n / 10, digits - 1);
      ByteLenAppend(FormatUint(n / 10), ('0' as nat + n % 10) as char);
    }
  }

  function Power10(digits: nat): nat {
    if digits == 0 then 1 else 10 * Power10(digits - 1)
  }

  lemma DecimalFormOk(n: nat)
    requires 0 < n < AMOUNT_LIMIT
    ensures var value := FormatUint(n); CeilingOk(value) && value != "" && ByteLen(value) <= 19 && Trimmed(value)
  {
    var value := FormatUint(n);
    FormatThenParse(n);
    PowerTable();
    FormatByteLen(n, 19);
    DigitNotSpace(value[0]);
    DigitNotSpace(value[|value| - 1]);
  }

  lemma DigitNotSpace(c: char)
    ensures IsDigit(c) ==> !IsSpace(c)
  {
  }

  /** The accepted ceilings are exactly the decimal forms of 1 to 2^63 - 1: no second spelling of a number. */
  lemma CeilingsAreDecimalForms(value: string)
    ensures ValidEntry(CEILING, value) <==> exists n: nat :: 0 < n < AMOUNT_LIMIT && value == FormatUint(n)
  {
    if n: nat :| 0 < n < AMOUNT_LIMIT && value == FormatUint(n) {
      DecimalFormOk(n);
    }
  }

  lemma PowerTable()
    ensures Power10(19) == 10_000_000_000_000_000_000
  {
    assert Power10(5) == 100_000;
    assert Power10(10) == 10_000_000_000;
    assert Power10(15) == 1_000_000_000_000_000;
  }
}
