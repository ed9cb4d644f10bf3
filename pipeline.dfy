/**
 * Sending a create command through the mediator with the validation behaviour
 * registered in front of the handler (src/Application/DependencyInjection.cs):
 * validate, and either throw a `ValidationException` carrying every failure or
 * run the handler. The behaviour's own code is not part of this model; this
 * module states the behaviour it is registered for.
 */
module Pipeline {
  import opened Domain
  import opened Persistence
  import opened CreateTransaction
  import opened Validation
  import opened ExceptionHandling

  datatype SendResult = Created(id: int) | Failed(error: Exception)

  method SendCreate(store: TransactionStore, command: CreateTransactionCommand, now: Ticks) returns (result: SendResult)
    requires store.Valid() && store.pending == []
    modifies store
    ensures store.Valid() && store.pending == []
    ensures !IsValid(command) ==>
      result == Failed(ValidationException(Validate(command)))
      && store.saved == old(store.saved) && store.nextId == old(store.nextId)
    ensures IsValid(command) ==>
      result.Created? && store.saved == old(store.saved) + [RowFor(command, now).(id := result.id)]
      && result.id == old(store.nextId) && store.nextId == old(store.nextId) + 1
  {
    var failures := Validate(command);
    if failures != [] {
      return Failed(ValidationException(failures));
    }
    var id := Handle(store, command, now);
    result := Created(id);
  }

  /** A rejected command reaches the caller as 400 "Validation Error" listing its failures in rule order. */
  lemma RejectedCommandIsBadRequest(command: CreateTransactionCommand, path: string)
    requires !IsValid(command)
    ensures var r := TryHandle(ValidationException(Validate(command)), path);
      r.handled && r.statusCode == Status400BadRequest && r.body.title == ValidationTitle
      && r.body.detail == Join(Separator, ErrorMessages(Validate(command)))
  {
  }

  /** A command whose only fault is a non-positive amount is answered with exactly that one message. */
  lemma NonPositiveAmountDetail(command: CreateTransactionCommand, path: string)
    requires !IsBlank(command.name) && Utf16Length(command.name) <= NameMaxLength
    requires command.amount <= 0.0 && command.categoryId != 0
    ensures TryHandle(ValidationException(Validate(command)), path).body.detail == "Amount must be greater than 0."
  {
    assert Validate(command) == [AmountNotPositive];
  }

  /** A blank name that is also too long, with a zero amount and no category, lists all four messages in order. */
  lemma AllRulesFailDetail(command: CreateTransactionCommand, path: string)
    requires IsBlank(command.name) && |command.name| > NameMaxLength
    requires command.amount <= 0.0 && command.categoryId == 0
    ensures TryHandle(ValidationException(Validate(command)), path).body.detail
      == NameRequired.errorMessage + Separator + NameTooLong.errorMessage + Separator
         + AmountNotPositive.errorMessage + Separator + CategoryRequired.errorMessage
  {
    var v := Validate(command);
    assert v == NameFailures(true, true) + AmountFailures(command.amount) + CategoryIdFailures(0);
    assert v == [NameRequired, NameTooLong, AmountNotPositive, CategoryRequired];
    JoinOfFour(Separator, ErrorMessages(v));
  }
}
