/** Reading what arrives: decryption and the JSON shapes, as functions that may
    fail. Nothing is assumed of them beyond being functions. */
module Codecs {
  import opened Wrappers
  import opened Keys
  import opened Methods
  import opened Grants

  type Value = string

  /** A request as it was sent: any method name, and parameters not yet looked at. */
  datatype Request = Request(name: string, params: Value)

  datatype Codec = Codec(
    profile: ProfileParser,
    decrypt: (PublicKey, string) -> Option<string>,
    types: string -> Option<seq<string>>,
    request: string -> Option<Request>,
    fits: (RequestType, Value) -> bool)
}
