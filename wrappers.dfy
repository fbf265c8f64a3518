/** Option and Result, and the failures the conversion engine can raise. */
module Wrappers {

  datatype Option<+T> = None | Some(value: T)

  /** A failure-compatible result: `:-` propagates the first failure. */
  datatype Result<+R> = Success(value: R) | Failure(error: Error) {
    predicate IsFailure() { Failure? }

    function PropagateFailure<U>(): Result<U>
      requires Failure?
    {
      Failure(error)
    }

    function Extract(): R
      requires Success?
    {
      value
    }
  }

  /** The exceptions the Python code raises, one constructor per cause. */
  datatype Error =
    | CyclicDependency                 // ValueError from topological_sort
    | EmptyProvides                    // min() over a rule that provides no label
    | UnresolvedReference(role: string) // KeyError on the shared identifier table
    | MalformedField(field: string)    // KeyError / TypeError reading the document
    | NotAString(field: string)        // AttributeError: .lower()/.upper()/.split() on a non-string (None included)
    | UnsupportedLanguage(raw: string) // ValueError from the language rule
    | MissingAlpha2(name: string)      // AttributeError: language record without alpha_2
    | Unhashable(field: string)        // TypeError: a dict or list placed in a set of triples
    | NotATerm(field: string)          // AssertionError from rdflib's Graph.add: a triple part that is no RDF term
}
