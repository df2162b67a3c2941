/** The exceptions the modelled code throws or lets escape, as values. */
module Exceptions {
  import opened Wrappers

  /** The exception classes that reach the callers of the modelled code. */
  datatype ExceptionKind =
    | OperationNotPermitted   // the repository's own OperationNotPermittedException
    | Runtime                 // kotlin.RuntimeException
    | Plain                   // kotlin.Exception
    | NoSuchElement           // awaitSingle() on a publisher that completed empty
    | NullPointer             // `!!` on null, `null as String`, a Reactor mapper returning null
    | ClassCast               // `as String` on a value of another type
    | DataIntegrityViolation  // the store refused a row (not-null, unique, key)
    | BadSqlGrammar           // the store refused the statement (unbound parameter, bad column list)
    | OptimisticLock          // jakarta.persistence.OptimisticLockException

  /** The message of a thrown exception. */
  datatype Message =
    | NoMessage           // null: Kotlin's `!!` throws without a message
    | Text(text: string)  // a message the modelled code writes itself
    | LibraryText         // written by the library that threw; its wording is not modelled

  /** A thrown exception: its class and its message. */
  datatype Exception = Exception(kind: ExceptionKind, message: Message)

  function Throw(kind: ExceptionKind, message: string): Exception {
    Exception(kind, Text(message))
  }

  /** Kotlin's `!!` on a null value: a NullPointerException without a message. */
  function ThrowNullAssertion(): Exception {
    Exception(NullPointer, NoMessage)
  }

  /** An exception raised by library code (Reactor, the coroutine bridge, the
      cast check, the database driver): it carries the library's message,
      whose text the model leaves open. */
  function ThrowLibrary(kind: ExceptionKind): Exception {
    Exception(kind, LibraryText)
  }
}

module Errors {
  import opened Wrappers

  datatype ErrorType = OptimisticLockingException | GenericException {

    /** The numeric code the enum constant is declared with. */
    function Code(): int {
      match this
      case OptimisticLockingException => 1
      case GenericException => 0
    }

    /** The constant's declared name. */
    function Name(): string {
      match this
      case OptimisticLockingException => "OPTIMISTIC_LOCKING_EXCEPTION"
      case GenericException => "GENERIC_EXCEPTION"
    }

    /** The `@JsonValue` of a constant: its name. */
    function ToJsonValue(): string {
      Name()
    }
  }

  const AllErrorTypes: seq<ErrorType> := [OptimisticLockingException, GenericException]

  /** Jackson's reading of a `@JsonValue` enum: the constant whose JSON value matches. */
  function FromJsonValue(s: string): (r: Option<ErrorType>)
    ensures r.Some? ==> r.value.ToJsonValue() == s
    ensures r.None? ==> forall t: ErrorType :: t.ToJsonValue() != s
  {
    if s == OptimisticLockingException.ToJsonValue() then Some(OptimisticLockingException)
    else if s == GenericException.ToJsonValue() then Some(GenericException)
    else None
  }

  /** The constant carrying a given code, if any. */
  function FromCode(code: int): (r: Option<ErrorType>)
    ensures r.Some? ==> r.value.Code() == code
    ensures r.None? ==> forall t: ErrorType :: t.Code() != code
  {
    if code == 1 then Some(OptimisticLockingException)
    else if code == 0 then Some(GenericException)
    else None
  }

  /** The two constants carry distinct codes, so the code identifies the type. */
  lemma CodeDeterminesType(a: ErrorType, b: ErrorType)
    ensures a.Code() == b.Code() <==> a == b
    ensures FromCode(a.Code()) == Some(a)
  {
  }

  /** Writing a constant as JSON and reading it back gives the same constant. */
  lemma JsonValueRoundTrip(t: ErrorType)
    ensures FromJsonValue(t.ToJsonValue()) == Some(t)
  {
  }
}
