/** The `Source` interface of the example application: a fallible producer of
    one integer. Implementations are modelled by the result they give. */
module SourceInterface {

  /** Why a source could not produce an integer. */
  datatype SourceError = Generic | Empty
}
