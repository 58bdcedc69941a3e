/** Outcome types shared by the model: an optional value, the Java exceptions the
    harness can raise or let through, and the result of a Java call that either
    returns a value or throws. */
module Outcomes {

  datatype Option<+T> = None | Some(value: T)

  /** The exceptions that reach the harness code. */
  datatype Exception =
    | ClassNotFound(className: string)   // ClassLoader.loadClass knows no class of that name
    | ClassCast(className: string)       // Class.asSubclass: the class is not a Lexer (resp. Parser)
    | NullPointer                        // a lexer or parser field used before it was bound
    | StringIndexOutOfBounds             // String.charAt(0) on an empty rule name

  /** What a Java call does: return a value or throw an exception. */
  datatype Returned<+T> = Value(value: T) | Raised(exception: Exception)
}
