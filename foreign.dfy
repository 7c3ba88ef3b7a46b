/** The operations the relay borrows from libraries whose code is not part of this model:
    SHA-256 (`hashlib`), Ed25519 signature checking (PyNaCl) and JSON text (`json`).
    They are carried as function values so that every property proved below holds
    whatever those libraries compute. */
module Foreign {
  import opened Wrappers
  import opened Json

  datatype Primitives = Primitives(
    /** `hashlib.sha256(data).hexdigest()` */
    sha256Hex: seq<byte> -> string,
    /** `VerifyKey(key).verify(message, signature)` succeeding, for a 32-byte key */
    ed25519Verify: (seq<byte>, seq<byte>, seq<byte>) -> bool,
    /** `json.dumps(value)` */
    jsonDumps: Json -> string,
    /** `json.loads(text)` */
    jsonLoads: string -> Json)
}
