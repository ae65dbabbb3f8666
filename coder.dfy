/** The key and value encoders the typed adapters apply before delegating
    to the byte-level layer. They are abstract: any pair of functions. */
module Coders {
  import opened Types

  datatype Coder<-K, -V> = Coder(encodeKey: K -> Bytes, encodeValue: V -> Bytes)
}
