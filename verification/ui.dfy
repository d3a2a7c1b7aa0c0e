/** Presentation values the page logic chooses between. */
module Ui {
  /** The `variant` of a shadcn `Badge`. */
  datatype Variant = Default | Secondary | Destructive | Outline

  /** A toast notification: `variant: "destructive"` toasts are errors. */
  datatype Toast = Success(description: string) | Error(description: string)

  /** A zod validation message attached to a form field. */
  datatype FieldError = FieldError(field: string, message: string)

  /** A single zod rule: its error when the rule fails, nothing otherwise. */
  function Rule(fails: bool, e: FieldError): (errors: seq<FieldError>)
    ensures e in errors <==> fails
    ensures forall x :: x in errors ==> x == e
  {
    if fails then [e] else []
  }

  /** zod's default message for a string longer than its `.max(n)`; `limit` is `n` in decimal. */
  function AtMost(limit: string): string {
    "String must contain at most " + limit + " character(s)"
  }
}
