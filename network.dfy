/** The `Network` interface of the example application: a fallible fetch of a
    batch of integers. Implementations are modelled by the result they give. */
module NetworkInterface {

  /** Why a fetch failed. */
  datatype NetworkError = Generic | NotOK | NotAnInteger
}
