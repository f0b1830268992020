/** The part of OpenPGP.js the page calls, seen only through its results. Keys and messages
    are opaque handles; each library entry point is a total function whose `None` result
    stands for the call rejecting (throwing). */
module OpenPgp {
  import opened Js

  /** A parsed key, public or private, locked or unlocked. */
  datatype Key = Key(id: nat)

  /** A message object, created from plaintext or parsed from armor. */
  datatype Message = Message(id: nat)

  /** The armored halves of a freshly generated keypair. */
  datatype KeyPair = KeyPair(publicKey: string, privateKey: string)

  /** One user ID of a key to generate; an absent part is `undefined`. */
  datatype UserId = UserId(name: Option<string>, email: Option<string>)

  /** The options object handed to `generateKey`. */
  datatype KeyGenRequest = KeyGenRequest(
    kind: string, rsaBits: nat, userIds: seq<UserId>, passphrase: Option<string>)

  /** What `window.openpgp` does for each call the page makes. */
  datatype Library = Library(
    readKey: string -> Option<Key>,
    createMessage: string -> Option<Message>,
    encrypt: (Message, Key) -> Option<string>,
    readPrivateKey: string -> Option<Key>,
    decryptKey: (Key, string) -> Option<Key>,
    readMessage: string -> Option<Message>,
    decrypt: (Message, Key) -> Option<string>,
    generateKey: KeyGenRequest -> Option<KeyPair>)

  /** One call into the library, with the arguments the page passed. */
  datatype Call =
    | ReadKey(armoredKey: string)
    | CreateMessage(text: string)
    | EncryptWith(message: Message, encryptionKey: Key)
    | ReadPrivateKey(armoredPrivateKey: string)
    | DecryptKey(privateKey: Key, passphrase: string)
    | ReadMessage(armoredMessage: string)
    | DecryptWith(encrypted: Message, decryptionKey: Key)
    | GenerateKey(request: KeyGenRequest)
}
