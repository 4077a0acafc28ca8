/** Values shared by the models: JSON data, ideal digests, and the two result types. */
module Values {

  datatype Option<+T> = None | Some(value: T)

  datatype Result<+T, +E> = Success(value: T) | Failure(error: E)

  /** 256-bit secret keys, kept abstract. */
  type Key = nat

  type Record = map<string, Json>

  /** Strings. A digest in hexadecimal and the fingerprint of a key are strings too; they stay
      symbolic, so equal texts have equal origins (an ideal hash function). */
  datatype Text = Plain(chars: string) | Hex(digest: Digest) | Fingerprint(key: Key)

  /** `Zero` is the 64-zero anchor, `Sha` is SHA-256 and `Mac` HMAC-SHA256 over a canonical record. */
  datatype Digest = Zero | Sha(body: Record) | Mac(key: Key, sealed: Record)

  datatype Json =
    | Null
    | Bool(truth: bool)
    | Number(number: int)
    | Str(text: Text)
    | List(items: seq<Json>)
    | Object(fields: Record)

  /** `dict.get`: a missing field and a null field are the same. */
  function Get(record: Record, name: string): Json {
    if name in record then record[name] else Null
  }
}
