/**
 * `CreateTransactionCommandValidator`: three rule chains (Name, Amount,
 * CategoryId) evaluated with FluentValidation's default cascade, so every
 * failing rule is reported, in declaration order.
 */
module Validation {
  import opened Domain
  import opened CreateTransaction

  datatype ValidationFailure = ValidationFailure(propertyName: string, errorMessage: string)

  const NameMaxLength: nat := 200

  const NameRequired := ValidationFailure("Name", "Name is required.")
  const NameTooLong := ValidationFailure("Name", "Name must not exceed 200 characters.")
  const AmountNotPositive := ValidationFailure("Amount", "Amount must be greater than 0.")
  const CategoryRequired := ValidationFailure("CategoryId", "Category is required.")

  /** .NET `char.IsWhiteSpace`: the Unicode space, line and paragraph separators, and U+0009..U+000D, U+0085. */
  predicate IsWhiteSpace(c: char): (b: bool)
    ensures b ==> c as int < 0x1_0000
    ensures c == ' ' || c == '\t' || c == '\n' || c == '\r' ==> b
  {
    ('\t' <= c <= '\r') || c == ' ' || c == '\U{0085}' || c == '\U{00A0}' || c == '\U{1680}'
    || ('\U{2000}' <= c <= '\U{200A}') || c == '\U{2028}' || c == '\U{2029}'
    || c == '\U{202F}' || c == '\U{205F}' || c == '\U{3000}'
  }

  /** `string.IsNullOrWhiteSpace`: what `NotEmpty` rejects for a string (a null name behaves as ""). */
  predicate IsBlank(s: string): (b: bool)
    ensures s == [] ==> b
    ensures b ==> forall i :: 0 <= i < |s| ==> s[i] as int < 0x1_0000
  {
    forall i :: 0 <= i < |s| ==> IsWhiteSpace(s[i])
  }

  /** .NET `string.Length`: characters outside the Basic Multilingual Plane take two UTF-16 code units. */
  function Utf16Length(s: string): (n: nat)
    ensures |s| <= n <= 2 * |s|
    ensures n == |s| <==> forall i :: 0 <= i < |s| ==> s[i] as int < 0x1_0000
  {
    if s == [] then 0
    else (if s[0] as int < 0x1_0000 then 1 else 2) + Utf16Length(s[1..])
  }

  /** One character's share of `string.Length`: two code units above U+FFFF, otherwise one. */
  lemma Utf16LengthOfChar(c: char)
    ensures Utf16Length([c]) == if c as int < 0x1_0000 then 1 else 2
  {
    assert [c][1..] == [];
  }

  /** The measured length is additive, so it is the sum of the characters' shares. */
  lemma {:induction false} Utf16LengthAppend(a: string, b: string)
    ensures Utf16Length(a + b) == Utf16Length(a) + Utf16Length(b)
    decreases |a|
  {
    if a == [] {
      assert a + b == b;
    } else {
      assert (a + b)[0] == a[0] && (a + b)[1..] == a[1..] + b;
      Utf16LengthAppend(a[1..], b);
    }
  }

  /** The Name chain's failures, given whether the name is blank and whether it is too long. */
  function NameFailures(blank: bool, tooLong: bool): seq<ValidationFailure> {
    (if blank then [NameRequired] else []) + (if tooLong then [NameTooLong] else [])
  }

  function AmountFailures(amount: Amount): seq<ValidationFailure> {
    if amount > 0.0 then [] else [AmountNotPositive]
  }

  function CategoryIdFailures(categoryId: int): seq<ValidationFailure> {
    if categoryId != 0 then [] else [CategoryRequired]
  }

  /** The conditions under which the command passes every rule. */
  predicate IsValid(c: CreateTransactionCommand) {
    !IsBlank(c.name) && Utf16Length(c.name) <= NameMaxLength && c.amount > 0.0 && c.categoryId != 0
  }

  /** Runs the three rule chains; the result lists every failure, Name first, then Amount, then CategoryId. */
  function Validate(c: CreateTransactionCommand): (r: seq<ValidationFailure>)
    ensures NameRequired in r <==> IsBlank(c.name)
    ensures NameTooLong in r <==> Utf16Length(c.name) > NameMaxLength
    ensures AmountNotPositive in r <==> c.amount <= 0.0
    ensures CategoryRequired in r <==> c.categoryId == 0
    ensures forall f :: f in r ==> f in [NameRequired, NameTooLong, AmountNotPositive, CategoryRequired]
    ensures r == [] <==> IsValid(c)
  {
    NameFailures(IsBlank(c.name), Utf16Length(c.name) > NameMaxLength)
    + AmountFailures(c.amount) + CategoryIdFailures(c.categoryId)
  }

  /** Position of a rule in the validator's declaration order. */
  function RuleOrder(f: ValidationFailure): nat {
    if f == NameRequired then 0
    else if f == NameTooLong then 1
    else if f == AmountNotPositive then 2
    else 3
  }

  /** Failures are reported in declaration order, each at most once. */
  lemma ValidateOrdered(c: CreateTransactionCommand, i: nat, j: nat)
    requires i < j < |Validate(c)|
    ensures RuleOrder(Validate(c)[i]) < RuleOrder(Validate(c)[j])
  {
    ChainsOrdered(IsBlank(c.name), Utf16Length(c.name) > NameMaxLength, c.amount, c.categoryId, i, j);
  }

  lemma ChainsOrdered(blank: bool, tooLong: bool, amount: Amount, categoryId: int, i: nat, j: nat)
    requires i < j < |NameFailures(blank, tooLong) + AmountFailures(amount) + CategoryIdFailures(categoryId)|
    ensures var v := NameFailures(blank, tooLong) + AmountFailures(amount) + CategoryIdFailures(categoryId);
      RuleOrder(v[i]) < RuleOrder(v[j])
  {
    var n := NameFailures(blank, tooLong);
    var rest := AmountFailures(amount) + CategoryIdFailures(categoryId);
    assert RuleOrder(NameRequired) == 0 && RuleOrder(NameTooLong) == 1;
    assert RuleOrder(AmountNotPositive) == 2 && RuleOrder(CategoryRequired) == 3;
    if j < |n| {
      assert n == [NameRequired, NameTooLong] && i == 0 && j == 1;
    } else if i < |n| {
      assert (n + rest)[i] == n[i] && (n + rest)[j] == rest[j - |n|];
      assert RuleOrder(n[i]) <= 1 && RuleOrder(rest[j - |n|]) >= 2;
    } else {
      assert (n + rest)[i] == rest[i - |n|] && (n + rest)[j] == rest[j - |n|];
      assert rest == [AmountNotPositive, CategoryRequired] && i - |n| == 0 && j - |n| == 1;
    }
  }

  /** A whitespace-only name longer than 200 characters draws both Name messages, Required first. */
  lemma LongBlankNameGetsBothNameFailures(c: CreateTransactionCommand)
    requires IsBlank(c.name) && |c.name| > NameMaxLength
    ensures Validate(c)[..2] == [NameRequired, NameTooLong]
  {
  }

  /** A name of exactly 200 BMP characters passes the length rule; one of 201 fails it. */
  lemma NameLengthBoundary(c: CreateTransactionCommand)
    requires forall i :: 0 <= i < |c.name| ==> c.name[i] as int < 0x1_0000
    ensures NameTooLong in Validate(c) <==> |c.name| > 200
  {
  }
}
