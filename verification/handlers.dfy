/** What each event handler of the page decides, as a function of what it reads: the form
    fields, the three key slots, and what the library, the file picker, the network and the
    browser storage return. The `Session` class in module `Controller` performs these same
    steps on its fields. */
module Handlers {
  import opened Js
  import opened OpenPgp
  import Filename

  /** How a status line is styled: `status--ok`, `status--error`, or neither. */
  datatype StatusKind = Success | Failure | Neutral

  /** Every status a handler can show, on the main status line or on the keypair one. */
  datatype Report =
    | LibraryMissing
    | EmptyPlaintext
    | NoUploadedPublicKey
    | NoDefaultPublicKey
    | Encrypting
    | EncryptFailed
    | Encrypted
    | EmptyCiphertext
    | NoPrivateKey
    | Decrypting
    | UnlockFailed
    | DecryptFailed
    | Decrypted
    | NoIdentity
    | Generating
    | KeyGenFailed
    | KeyPairGenerated
    | NoDefaultKeyFile
    | DefaultKeyInvalid
    | DefaultKeyUnreachable
  {
    /** The text the status line shows. */
    function Text(): string {
      match this
      case LibraryMissing => "OpenPGP.js failed to load."
      case EmptyPlaintext => "Please enter some text to encrypt."
      case NoUploadedPublicKey => "You selected a public key file, but none is selected yet."
      case NoDefaultPublicKey => "No default public key is loaded. Select a public key file instead."
      case Encrypting => "Encrypting..."
      case EncryptFailed => "Failed to encrypt. Check that the public key is valid."
      case Encrypted => "Encryption complete."
      case EmptyCiphertext => "Please paste an encrypted PGP message to decrypt."
      case NoPrivateKey => "Select a private key file before decrypting."
      case Decrypting => "Decrypting..."
      case UnlockFailed => "Failed to unlock private key. Check your passphrase."
      case DecryptFailed =>
        "Failed to decrypt. Check that the private key, passphrase, and message match."
      case Decrypted => "Decryption complete."
      case NoIdentity => "Enter a name or email to generate a keypair."
      case Generating => "Generating keypair..."
      case KeyGenFailed => "Failed to generate keypair."
      case KeyPairGenerated => "Keypair generated and downloads started."
      case NoDefaultKeyFile => "No default public key file found. Select a public key file instead."
      case DefaultKeyInvalid => "Default public key file is not a valid PGP public key."
      case DefaultKeyUnreachable =>
        "Could not load default public key file. Select a public key file instead."
    }

    function Kind(): StatusKind {
      if this.Encrypted? || this.Decrypted? || this.KeyPairGenerated? then Success
      else if this.Encrypting? || this.Decrypting? || this.Generating? then Neutral
      else Failure
    }
  }

  // ---------------------------------------------------------------------------------------
  // Key uploads and the default key

  datatype KeyKind = PublicKey | PrivateKey

  /** The armor header a file must contain to be taken for a key of this kind. */
  function Header(kind: KeyKind): string {
    match kind
    case PublicKey => "BEGIN PGP PUBLIC KEY BLOCK"
    case PrivateKey => "BEGIN PGP PRIVATE KEY BLOCK"
  }

  /** The invariant of every key slot: empty, or text containing its header. */
  predicate SlotHolds(slot: string, kind: KeyKind) {
    slot == "" || Contains(slot, Header(kind))
  }

  /** What a file picker holds after a change: no file, or a first file whose text could be
      read (`Some`) or could not (`None`). */
  datatype FileChoice = NoFile | Chosen(name: string, contents: Option<string>)

  /** The message shown under a file picker. */
  datatype UploadInfo = NoneSelected | NotAKey | LoadedFrom(fileName: string) | ReadFailed

  function InfoText(kind: KeyKind, info: UploadInfo): string {
    match info
    case NoneSelected =>
      if kind == PublicKey then "No key uploaded yet." else "No private key uploaded yet."
    case NotAKey =>
      if kind == PublicKey then "File does not look like a PGP public key."
      else "File does not look like a PGP private key."
    case LoadedFrom(name) =>
      (if kind == PublicKey then "Loaded key from: " else "Loaded private key from: ") + name
    case ReadFailed =>
      if kind == PublicKey then "Failed to read key file." else "Failed to read private key file."
  }

  /** Every picker message shows its own text for a kind of key; a loaded file's message ends
      with the file's name. */
  lemma InfoTextsDistinct(kind: KeyKind, a: UploadInfo, b: UploadInfo)
    ensures a != b ==> InfoText(kind, a) != InfoText(kind, b)
    ensures a.LoadedFrom? ==>
      |a.fileName| <= |InfoText(kind, a)| &&
      InfoText(kind, a)[|InfoText(kind, a)| - |a.fileName|..] == a.fileName
  {
    InfoTextEndsWithName(kind, a);
    InfoTextEndsWithName(kind, b);
    if a.LoadedFrom? != b.LoadedFrom? {
      InfoTextInitial(kind, a);
      InfoTextInitial(kind, b);
    } else if a.LoadedFrom? && a != b {
      LoadedNamesDistinct(kind, a.fileName, b.fileName);
    }
  }

  /** Files with different names give different messages. */
  lemma LoadedNamesDistinct(kind: KeyKind, name1: string, name2: string)
    requires name1 != name2
    ensures InfoText(kind, LoadedFrom(name1)) != InfoText(kind, LoadedFrom(name2))
  {
    var t1, t2 := InfoText(kind, LoadedFrom(name1)), InfoText(kind, LoadedFrom(name2));
    InfoTextEndsWithName(kind, LoadedFrom(name1));
    InfoTextEndsWithName(kind, LoadedFrom(name2));
    if |name1| == |name2| {
      assert t1[|t1| - |name1|..] != t2[|t2| - |name2|..];
    } else {
      assert |t1| != |t2|;
    }
  }

  /** A loaded file's message ends with the file's name. */
  lemma InfoTextEndsWithName(kind: KeyKind, info: UploadInfo)
    ensures info.LoadedFrom? ==>
      |info.fileName| <= |InfoText(kind, info)| &&
      InfoText(kind, info)[|InfoText(kind, info)| - |info.fileName|..] == info.fileName
  {
    if info.LoadedFrom? {
      var prefix := if kind == PublicKey then "Loaded key from: " else "Loaded private key from: ";
      assert InfoText(kind, info) == prefix + info.fileName;
      assert (prefix + info.fileName)[|prefix|..] == info.fileName;
    }
  }

  /** The first letter of a picker message: a loaded file's message starts differently from
      the fixed ones. */
  lemma InfoTextInitial(kind: KeyKind, info: UploadInfo)
    ensures InfoText(kind, info) != []
    ensures InfoText(kind, info)[0] == 'L' <==> info.LoadedFrom?
  {
  }


  /** The new contents of the slot and the message under the picker. */
  datatype Upload = Upload(slot: string, info: UploadInfo)

  /** `handleKeyUpload` (public) and `handlePrivateKeyUpload` (private). */
  function UploadKey(kind: KeyKind, file: FileChoice): (u: Upload)
    ensures SlotHolds(u.slot, kind)
    ensures u.slot != "" <==> u.info.LoadedFrom?
    ensures u.info.LoadedFrom? <==>
      file.Chosen? && file.contents.Some? && Contains(file.contents.value, Header(kind))
    ensures u.info.LoadedFrom? ==> u.slot == file.contents.value && u.info.fileName == file.name
    ensures file.NoFile? ==> u.info == NoneSelected
    ensures file.Chosen? && file.contents.None? ==> u.info == ReadFailed
    ensures file.Chosen? && file.contents.Some? && !Contains(file.contents.value, Header(kind)) ==>
      u.info == NotAKey
  {
    match file
    case NoFile => Upload("", NoneSelected)
    case Chosen(name, contents) =>
      match contents
      case None => Upload("", ReadFailed)
      case Some(text) =>
        if !Contains(text, Header(kind)) then Upload("", NotAKey)
        else Upload(text, LoadedFrom(name))
  }

  /** What `fetch("default-public-key.asc")` gives: a rejection (or a body that could not be
      read), a response that is not ok, or the text of the body. */
  datatype Fetch = FetchThrew | NotOk | Body(text: string)

  /** The default slot after the load, and the status set when the load fails. */
  datatype DefaultLoad = DefaultLoad(slot: string, report: Option<Report>)

  /** `loadDefaultPublicKey`: the default slot is replaced only by a text containing the public
      key header; every failure sets an error status and leaves the slot as it was. */
  function LoadDefault(fetch: Fetch, current: string): (d: DefaultLoad)
    ensures d.report.None? <==> fetch.Body? && Contains(fetch.text, Header(PublicKey))
    ensures d.report.None? ==> d.slot == fetch.text
    ensures d.report.Some? ==> d.slot == current && d.report.value.Kind() == Failure
    ensures SlotHolds(current, PublicKey) ==> SlotHolds(d.slot, PublicKey)
    ensures fetch.FetchThrew? ==> d.report == Some(DefaultKeyUnreachable)
    ensures fetch.NotOk? ==> d.report == Some(NoDefaultKeyFile)
    ensures fetch.Body? && !Contains(fetch.text, Header(PublicKey)) ==> d.report == Some(DefaultKeyInvalid)
  {
    match fetch
    case FetchThrew => DefaultLoad(current, Some(DefaultKeyUnreachable))
    case NotOk => DefaultLoad(current, Some(NoDefaultKeyFile))
    case Body(text) =>
      if !Contains(text, Header(PublicKey)) then DefaultLoad(current, Some(DefaultKeyInvalid))
      else DefaultLoad(text, None)
  }

  // ---------------------------------------------------------------------------------------
  // Encryption and decryption

  /** The value of the key-mode select that chooses the uploaded public key. */
  const UPLOADED_MODE := "uploaded"

  /** The armored public key the key mode points at. */
  function SelectedKey(keyMode: string, uploadedKey: string, defaultKey: string): (k: string)
    ensures k == uploadedKey || k == defaultKey
    ensures uploadedKey != defaultKey ==> (k == uploadedKey <==> keyMode == UPLOADED_MODE)
  {
    if keyMode == UPLOADED_MODE then uploadedKey else defaultKey
  }

  /** The final status, the new content of the text area if the handler writes one, and the
      library calls made, in order. */
  datatype Outcome = Outcome(report: Report, written: Option<string>, calls: seq<Call>)

  /** Whether reading the key, making the message and encrypting it all succeed. */
  predicate EncryptSucceeds(l: Library, plaintext: string, armoredKey: string) {
    l.readKey(armoredKey).Some? && l.createMessage(plaintext).Some? &&
    l.encrypt(l.createMessage(plaintext).value, l.readKey(armoredKey).value).Some?
  }

  /** `encryptCurrentText`. The three checks (library, blank text, selected slot) run in that
      order before any library call; the text area is written only on success, with the
      library's encryption of the text under the selected key. */
  function EncryptText(lib: Option<Library>, plaintext: string, keyMode: string,
                       uploadedKey: string, defaultKey: string): (o: Outcome)
    ensures o.written.Some? <==> o.report == Encrypted
    ensures lib.None? ==> o.report == LibraryMissing
    ensures lib.Some? && IsBlank(plaintext) ==> o.report == EmptyPlaintext
    ensures lib.Some? && !IsBlank(plaintext) && SelectedKey(keyMode, uploadedKey, defaultKey) == "" ==>
      o.report == if keyMode == UPLOADED_MODE then NoUploadedPublicKey else NoDefaultPublicKey
    ensures o.calls == [] <==>
      lib.None? || IsBlank(plaintext) || SelectedKey(keyMode, uploadedKey, defaultKey) == ""
    ensures o.report == Encrypted <==>
      lib.Some? && !IsBlank(plaintext) && SelectedKey(keyMode, uploadedKey, defaultKey) != "" &&
      EncryptSucceeds(lib.value, plaintext, SelectedKey(keyMode, uploadedKey, defaultKey))
    ensures o.calls != [] ==>
      o.calls[0] == ReadKey(SelectedKey(keyMode, uploadedKey, defaultKey)) &&
      (o.report == Encrypted || o.report == EncryptFailed)
    ensures o.written.Some? ==>
      var l, key := lib.value, SelectedKey(keyMode, uploadedKey, defaultKey);
      o.written == l.encrypt(l.createMessage(plaintext).value, l.readKey(key).value) &&
      o.calls == [ReadKey(key), CreateMessage(plaintext),
                  EncryptWith(l.createMessage(plaintext).value, l.readKey(key).value)]
  {
    if lib.None? then Outcome(LibraryMissing, None, [])
    else if IsBlank(plaintext) then Outcome(EmptyPlaintext, None, [])
    else
      var useUploaded := keyMode == UPLOADED_MODE;
      if useUploaded && uploadedKey == "" then Outcome(NoUploadedPublicKey, None, [])
      else if !useUploaded && defaultKey == "" then Outcome(NoDefaultPublicKey, None, [])
      else
        EncryptUnder(lib.value, plaintext, if useUploaded then uploadedKey else defaultKey)
  }

  /** The part of `encryptCurrentText` inside its `try`: read the key, make the message and
      encrypt it, the first rejection ending in the encryption error. */
  function EncryptUnder(l: Library, plaintext: string, armoredKey: string): (o: Outcome)
    ensures o.written.Some? <==> o.report == Encrypted
    ensures o.report == Encrypted <==> EncryptSucceeds(l, plaintext, armoredKey)
    ensures o.report == Encrypted || o.report == EncryptFailed
    ensures o.calls != [] && o.calls[0] == ReadKey(armoredKey)
    ensures o.written.Some? ==>
      o.written == l.encrypt(l.createMessage(plaintext).value, l.readKey(armoredKey).value) &&
      o.calls == [ReadKey(armoredKey), CreateMessage(plaintext),
                  EncryptWith(l.createMessage(plaintext).value, l.readKey(armoredKey).value)]
  {
    match l.readKey(armoredKey)
    case None => Outcome(EncryptFailed, None, [ReadKey(armoredKey)])
    case Some(publicKey) => EncryptUnderKey(l, plaintext, armoredKey, publicKey)
  }

  /** The rest of the `try` of `encryptCurrentText` once the key read from `armoredKey` is
      `publicKey`: make the message and encrypt it, a rejection giving the encryption error. */
  function EncryptUnderKey(l: Library, plaintext: string, armoredKey: string, publicKey: Key): (o: Outcome)
    ensures o.written.Some? <==> o.report == Encrypted
    ensures o.report == Encrypted <==>
      l.createMessage(plaintext).Some? && l.encrypt(l.createMessage(plaintext).value, publicKey).Some?
    ensures o.report == Encrypted || o.report == EncryptFailed
    ensures |o.calls| >= 2 && o.calls[..2] == [ReadKey(armoredKey), CreateMessage(plaintext)]
    ensures o.written.Some? ==>
      o.written == l.encrypt(l.createMessage(plaintext).value, publicKey) &&
      o.calls == [ReadKey(armoredKey), CreateMessage(plaintext),
                  EncryptWith(l.createMessage(plaintext).value, publicKey)]
  {
    match l.createMessage(plaintext)
    case None => Outcome(EncryptFailed, None, [ReadKey(armoredKey), CreateMessage(plaintext)])
    case Some(message) =>
      var calls := [ReadKey(armoredKey), CreateMessage(plaintext), EncryptWith(message, publicKey)];
      match l.encrypt(message, publicKey)
      case None => Outcome(EncryptFailed, None, calls)
      case Some(encrypted) => Outcome(Encrypted, Some(encrypted), calls)
  }

  /** The uploaded key is the one read exactly when the key mode says "uploaded" (told apart from
      the default key whenever the two slots differ). */
  lemma EncryptReadsSelectedSlot(lib: Option<Library>, plaintext: string, keyMode: string,
                                 uploadedKey: string, defaultKey: string)
    requires uploadedKey != defaultKey
    ensures var o := EncryptText(lib, plaintext, keyMode, uploadedKey, defaultKey);
      o.calls != [] ==> (o.calls[0] == ReadKey(uploadedKey) <==> keyMode == UPLOADED_MODE)
  {
  }

  /** The key `decrypt` is given: the private key as read when the passphrase is blank, else
      the result of unlocking it with the passphrase exactly as typed. */
  function DecryptionKey(l: Library, privateKey: Key, passphrase: string): (k: Option<Key>)
    ensures IsBlank(passphrase) ==> k == Some(privateKey)
    ensures !IsBlank(passphrase) ==> k == l.decryptKey(privateKey, passphrase)
    ensures k.None? <==> UnlockRejected(l, privateKey, passphrase)
  {
    if IsBlank(passphrase) then Some(privateKey) else l.decryptKey(privateKey, passphrase)
  }

  /** Whether a call sequence contains an attempt to unlock a private key. */
  predicate TriesUnlock(calls: seq<Call>) {
    exists c :: c in calls && c.DecryptKey?
  }

  /** `decryptCurrentText`, given the value of the passphrase field (`None` when the page has no
      such field, so that reading it throws). Nothing is called unless the library is there, the
      text is not blank and a private key is uploaded; the key is unlocked exactly when the
      trimmed passphrase is not empty, with the untrimmed passphrase; a failed unlock reports
      its own error and stops; the text area is written only on success, with the library's
      decryption of the text. */
  function DecryptText(lib: Option<Library>, ciphertext: string, passphrase: Option<string>,
                       privateKeyArmored: string): (o: Outcome)
    ensures o.written.Some? <==> o.report == Decrypted
    ensures lib.None? ==> o.report == LibraryMissing
    ensures lib.Some? && IsBlank(ciphertext) ==> o.report == EmptyCiphertext
    ensures lib.Some? && !IsBlank(ciphertext) && privateKeyArmored == "" ==> o.report == NoPrivateKey
    ensures o.calls == [] <==> lib.None? || IsBlank(ciphertext) || privateKeyArmored == ""
    ensures o.calls != [] ==>
      o.calls[0] == ReadPrivateKey(privateKeyArmored) &&
      (o.report == Decrypted || o.report == DecryptFailed || o.report == UnlockFailed)
    ensures TriesUnlock(o.calls) <==>
      o.calls != [] && lib.value.readPrivateKey(privateKeyArmored).Some? &&
      passphrase.Some? && !IsBlank(passphrase.value)
    ensures o.report == UnlockFailed <==>
      o.calls != [] && SlotUnlockRejected(lib.value, privateKeyArmored, passphrase)
    ensures o.report == Decrypted <==>
      o.calls != [] && SlotDecryptSucceeds(lib.value, ciphertext, privateKeyArmored, passphrase)
    ensures forall c :: c in o.calls && c.DecryptKey? ==>
      c == DecryptKey(lib.value.readPrivateKey(privateKeyArmored).value, passphrase.value)
    ensures o.report == UnlockFailed ==>
      TriesUnlock(o.calls) && forall c :: c in o.calls ==> !c.ReadMessage?
    ensures o.written.Some? ==>
      var l := lib.value;
      var key := DecryptionKey(l, l.readPrivateKey(privateKeyArmored).value, passphrase.value);
      o.written == l.decrypt(l.readMessage(ciphertext).value, key.value)
  {
    if lib.None? then Outcome(LibraryMissing, None, [])
    else if IsBlank(ciphertext) then Outcome(EmptyCiphertext, None, [])
    else if privateKeyArmored == "" then Outcome(NoPrivateKey, None, [])
    else DecryptFromSlot(lib.value, ciphertext, passphrase, privateKeyArmored)
  }

  /** The `try` block of `decryptCurrentText`: read the private key, read the passphrase field,
      then unlock and decrypt. */
  function DecryptFromSlot(l: Library, ciphertext: string, passphrase: Option<string>,
                           privateKeyArmored: string): (o: Outcome)
    ensures o.written.Some? <==> o.report == Decrypted
    ensures o.report == Decrypted || o.report == DecryptFailed || o.report == UnlockFailed
    ensures o.calls != [] && o.calls[0] == ReadPrivateKey(privateKeyArmored)
    ensures TriesUnlock(o.calls) <==>
      l.readPrivateKey(privateKeyArmored).Some? && passphrase.Some? && !IsBlank(passphrase.value)
    ensures o.report == UnlockFailed <==> SlotUnlockRejected(l, privateKeyArmored, passphrase)
    ensures o.report == Decrypted <==> SlotDecryptSucceeds(l, ciphertext, privateKeyArmored, passphrase)
    ensures forall c :: c in o.calls && c.DecryptKey? ==>
      c == DecryptKey(l.readPrivateKey(privateKeyArmored).value, passphrase.value)
    ensures o.report == UnlockFailed ==>
      TriesUnlock(o.calls) && forall c :: c in o.calls ==> !c.ReadMessage?
    ensures o.written.Some? ==>
      var key := DecryptionKey(l, l.readPrivateKey(privateKeyArmored).value, passphrase.value);
      o.written == l.decrypt(l.readMessage(ciphertext).value, key.value)
  {
    var read := [ReadPrivateKey(privateKeyArmored)];
    match l.readPrivateKey(privateKeyArmored)
    case None => Outcome(DecryptFailed, None, read)
    case Some(privateKey) =>
      match passphrase
      case None => Outcome(DecryptFailed, None, read)
      case Some(p) => UnlockThenDecrypt(l, ciphertext, privateKeyArmored, privateKey, p)
  }

  /** The part of `decryptCurrentText` after the private key has been read from
      `privateKeyArmored`: unlock it when the passphrase is not blank, then decrypt. */
  function UnlockThenDecrypt(l: Library, ciphertext: string, privateKeyArmored: string,
                             privateKey: Key, passphrase: string): (o: Outcome)
    ensures o.written.Some? <==> o.report == Decrypted
    ensures o.report == Decrypted || o.report == DecryptFailed || o.report == UnlockFailed
    ensures o.calls != [] && o.calls[0] == ReadPrivateKey(privateKeyArmored)
    ensures TriesUnlock(o.calls) <==> !IsBlank(passphrase)
    ensures o.report == UnlockFailed <==> UnlockRejected(l, privateKey, passphrase)
    ensures o.report == Decrypted <==> UnlockAndDecryptSucceed(l, ciphertext, privateKey, passphrase)
    ensures forall c :: c in o.calls && c.DecryptKey? ==> c == DecryptKey(privateKey, passphrase)
    ensures o.report == UnlockFailed ==>
      TriesUnlock(o.calls) && forall c :: c in o.calls ==> !c.ReadMessage?
    ensures o.written.Some? ==>
      var key := DecryptionKey(l, privateKey, passphrase);
      o.written == l.decrypt(l.readMessage(ciphertext).value, key.value)
  {
    if IsBlank(passphrase) then FinishDecrypt(l, ciphertext, privateKey, [ReadPrivateKey(privateKeyArmored)])
    else UnlockWith(l, ciphertext, privateKeyArmored, privateKey, passphrase)
  }

  /** The inner `try` of `decryptCurrentText`, for a passphrase that is not blank: unlock the
      private key with it as typed; a rejection reports the passphrase error and stops before
      the message is read, and otherwise the unlocked key decrypts. */
  function UnlockWith(l: Library, ciphertext: string, privateKeyArmored: string,
                      privateKey: Key, passphrase: string): (o: Outcome)
    requires !IsBlank(passphrase)
    ensures o.written.Some? <==> o.report == Decrypted
    ensures o.report == Decrypted || o.report == DecryptFailed || o.report == UnlockFailed
    ensures |o.calls| >= 2 && o.calls[..2] == [ReadPrivateKey(privateKeyArmored), DecryptKey(privateKey, passphrase)]
    ensures TriesUnlock(o.calls)
    ensures o.report == UnlockFailed <==> l.decryptKey(privateKey, passphrase).None?
    ensures o.report == Decrypted <==>
      l.decryptKey(privateKey, passphrase).Some? &&
      ReadAndDecryptSucceed(l, ciphertext, l.decryptKey(privateKey, passphrase).value)
    ensures forall c :: c in o.calls && c.DecryptKey? ==> c == DecryptKey(privateKey, passphrase)
    ensures o.report == UnlockFailed ==> forall c :: c in o.calls ==> !c.ReadMessage?
    ensures o.written.Some? ==>
      o.written == l.decrypt(l.readMessage(ciphertext).value, l.decryptKey(privateKey, passphrase).value)
  {
    var unlocking := [ReadPrivateKey(privateKeyArmored), DecryptKey(privateKey, passphrase)];
    assert unlocking[1] in unlocking;
    match l.decryptKey(privateKey, passphrase)
    case None => Outcome(UnlockFailed, None, unlocking)
    case Some(unlocked) => FinishDecrypt(l, ciphertext, unlocked, unlocking)
  }

  /** Whether reading the message and decrypting it under `key` both succeed. */
  predicate ReadAndDecryptSucceed(l: Library, ciphertext: string, key: Key) {
    l.readMessage(ciphertext).Some? && l.decrypt(l.readMessage(ciphertext).value, key).Some?
  }

  /** Whether the unlock (when the passphrase is not blank), the message read and the
      decryption all succeed for a private key already read. */
  predicate UnlockAndDecryptSucceed(l: Library, ciphertext: string, privateKey: Key, passphrase: string) {
    DecryptionKey(l, privateKey, passphrase).Some? &&
    ReadAndDecryptSucceed(l, ciphertext, DecryptionKey(l, privateKey, passphrase).value)
  }

  /** Whether a non-blank passphrase is rejected by `decryptKey`. */
  predicate UnlockRejected(l: Library, privateKey: Key, passphrase: string) {
    !IsBlank(passphrase) && l.decryptKey(privateKey, passphrase).None?
  }

  /** Whether the private key in the slot is read and then rejects the (non-blank) passphrase
      field's value; `passphrase` is `None` when the page has no passphrase field. */
  predicate SlotUnlockRejected(l: Library, privateKeyArmored: string, passphrase: Option<string>) {
    l.readPrivateKey(privateKeyArmored).Some? && passphrase.Some? &&
    UnlockRejected(l, l.readPrivateKey(privateKeyArmored).value, passphrase.value)
  }

  /** Whether reading the private key in the slot, reading the passphrase field, the unlock, the
      message read and the decryption all succeed. */
  predicate SlotDecryptSucceeds(l: Library, ciphertext: string, privateKeyArmored: string,
                                passphrase: Option<string>) {
    l.readPrivateKey(privateKeyArmored).Some? && passphrase.Some? &&
    UnlockAndDecryptSucceed(l, ciphertext, l.readPrivateKey(privateKeyArmored).value, passphrase.value)
  }

  /** The rest of `decryptCurrentText` once the decryption key is known: read the message,
      decrypt it, and write the result. */
  function FinishDecrypt(l: Library, ciphertext: string, key: Key, before: seq<Call>): (o: Outcome)
    ensures o.written.Some? <==> o.report == Decrypted
    ensures o.report == Decrypted <==> ReadAndDecryptSucceed(l, ciphertext, key)
    ensures o.report == Decrypted || o.report == DecryptFailed
    ensures |o.calls| > |before| && o.calls[..|before|] == before
    ensures o.calls[|before|] == ReadMessage(ciphertext)
    ensures forall c :: c in o.calls ==> c in before || c.ReadMessage? || c.DecryptWith?
    ensures forall c :: c in before ==> c in o.calls
    ensures o.written.Some? ==>
      o.written == l.decrypt(l.readMessage(ciphertext).value, key)
  {
    match l.readMessage(ciphertext)
    case None => Outcome(DecryptFailed, None, before + [ReadMessage(ciphertext)])
    case Some(message) =>
      var calls := before + [ReadMessage(ciphertext), DecryptWith(message, key)];
      match l.decrypt(message, key)
      case None => Outcome(DecryptFailed, None, calls)
      case Some(data) => Outcome(Decrypted, Some(data), calls)
  }

  // ---------------------------------------------------------------------------------------
  // The remembered passphrase

  /** The `localStorage` key under which the passphrase is remembered. */
  const PASSPHRASE_STORAGE_KEY := "pgpLitePrivatePassphrase"

  /** `syncStoredPassphrase`: with both controls on the page and storage working, the entry holds
      the passphrase verbatim when the box is checked and the passphrase is not empty, and is
      removed otherwise; without the controls, or when storage throws, nothing changes. No other
      entry is touched. */
  function SyncedStore(controlsPresent: bool, storageWorks: bool, remember: bool,
                       passphrase: string, store: map<string, string>): (s: map<string, string>)
    ensures !controlsPresent || !storageWorks ==> s == store
    ensures controlsPresent && storageWorks ==>
      (PASSPHRASE_STORAGE_KEY in s <==> remember && passphrase != "") &&
      (PASSPHRASE_STORAGE_KEY in s ==> s[PASSPHRASE_STORAGE_KEY] == passphrase)
    ensures forall k :: k != PASSPHRASE_STORAGE_KEY ==>
      (k in s <==> k in store) && (k in s ==> s[k] == store[k])
  {
    if !controlsPresent || !storageWorks then store
    else if remember && passphrase != "" then store[PASSPHRASE_STORAGE_KEY := passphrase]
    else store - {PASSPHRASE_STORAGE_KEY}
  }

  /** The startup restore: a stored, non-empty passphrase is put back (and the box checked) when
      both controls are on the page; a storage error restores nothing. */
  function RestoredPassphrase(storageWorks: bool, controlsPresent: bool,
                              store: map<string, string>): (r: Option<string>)
    ensures r.Some? <==>
      storageWorks && controlsPresent && PASSPHRASE_STORAGE_KEY in store &&
      store[PASSPHRASE_STORAGE_KEY] != ""
    ensures r.Some? ==> r.value == store[PASSPHRASE_STORAGE_KEY]
  {
    if !storageWorks then None
    else
      var stored := if PASSPHRASE_STORAGE_KEY in store then Some(store[PASSPHRASE_STORAGE_KEY]) else None;
      if stored.Some? && stored.value != "" && controlsPresent then stored else None
  }

  /** What is remembered is what comes back on the next visit, and only that: after a sync with
      both controls present and storage working, the restore gives the passphrase exactly when
      the box was checked and the passphrase was not empty. */
  lemma RememberedPassphraseRestored(remember: bool, passphrase: string, store: map<string, string>)
    ensures RestoredPassphrase(true, true, SyncedStore(true, true, remember, passphrase, store)) ==
      if remember && passphrase != "" then Some(passphrase) else None
  {
  }

  /** Unchecking the box forgets the passphrase: nothing is restored afterwards. */
  lemma UncheckedForgets(passphrase: string, store: map<string, string>)
    ensures RestoredPassphrase(true, true, SyncedStore(true, true, false, passphrase, store)).None?
  {
  }

  // ---------------------------------------------------------------------------------------
  // Keypair generation

  /** The type of both downloaded files. */
  const KEY_MIME_TYPE := "application/pgp-keys"

  /** A file download the page starts. */
  datatype Download = Download(fileName: string, content: string, mimeType: string)

  /** The final keypair status, the library calls, and the downloads started. */
  datatype KeyGen = KeyGen(report: Report, calls: seq<Call>, downloads: seq<Download>)

  /** The options passed to `generateKey`, from the trimmed name and email and the passphrase as
      typed. */
  function KeyGenRequestFor(name: string, email: string, passphrase: string): (r: KeyGenRequest)
    ensures r.kind == "rsa" && r.rsaBits == 4096
    ensures |r.userIds| <= 1 && (r.userIds == [] <==> name == "" && email == "")
    ensures forall id :: id in r.userIds ==>
      (id.name.Some? <==> name != "") && (id.name.Some? ==> id.name.value == name) &&
      (id.email.Some? <==> email != "") && (id.email.Some? ==> id.email.value == email)
    ensures (r.passphrase.Some? <==> passphrase != "") &&
      (r.passphrase.Some? ==> r.passphrase.value == passphrase)
  {
    var userIds := if name != "" || email != "" then [UserId(OrUndefined(name), OrUndefined(email))]
                   else [];
    KeyGenRequest("rsa", 4096, userIds, OrUndefined(passphrase))
  }

  /** The sanitised base of both file names, from the trimmed email, else the trimmed name. */
  function BaseName(name: string, email: string): (b: string)
    ensures |b| <= Filename.MAX_LENGTH && Filename.AllAllowed(b)
    ensures name == "" && email == "" ==> b == Filename.FALLBACK
  {
    Filename.SanitizeOfClean(Filename.FALLBACK);
    Filename.Sanitize(OrElse(email, OrElse(name, Filename.FALLBACK)))
  }

  /** `generateAndDownloadKeypair`. A missing library or an identity with neither name nor email
      stops before any library call; otherwise one `generateKey` call is made and, when it
      succeeds, the two halves are downloaded as `<base>-public.asc` and `<base>-private.asc`. */
  function GenerateKeypair(lib: Option<Library>, nameInput: string, emailInput: string,
                           passphraseInput: string): (g: KeyGen)
    ensures lib.None? ==> g == KeyGen(LibraryMissing, [], [])
    ensures lib.Some? && IsBlank(nameInput) && IsBlank(emailInput) ==> g == KeyGen(NoIdentity, [], [])
    ensures g.calls != [] <==> lib.Some? && !(IsBlank(nameInput) && IsBlank(emailInput))
    ensures g.calls != [] ==>
      g.calls == [GenerateKey(KeyGenRequestFor(Trim(nameInput), Trim(emailInput), passphraseInput))] &&
      (g.report == KeyPairGenerated || g.report == KeyGenFailed)
    ensures g.report == KeyPairGenerated <==>
      lib.Some? && !(IsBlank(nameInput) && IsBlank(emailInput)) &&
      lib.value.generateKey(KeyGenRequestFor(Trim(nameInput), Trim(emailInput), passphraseInput)).Some?
    ensures g.report == KeyPairGenerated <==> g.downloads != []
    ensures g.report == KeyPairGenerated ==>
      var pair := lib.value.generateKey(KeyGenRequestFor(Trim(nameInput), Trim(emailInput), passphraseInput));
      var base := BaseName(Trim(nameInput), Trim(emailInput));
      pair.Some? &&
      g.downloads == [Download(base + "-public.asc", pair.value.publicKey, KEY_MIME_TYPE),
                      Download(base + "-private.asc", pair.value.privateKey, KEY_MIME_TYPE)]
  {
    if lib.None? then KeyGen(LibraryMissing, [], [])
    else
      var name, email := Trim(nameInput), Trim(emailInput);
      if name == "" && email == "" then KeyGen(NoIdentity, [], [])
      else GenerateFor(lib.value, name, email, passphraseInput)
  }

  /** The `try` block of `generateAndDownloadKeypair`, with the trimmed name and email: one
      `generateKey` call and, when it succeeds, the two downloads. */
  function GenerateFor(l: Library, name: string, email: string, passphrase: string): (g: KeyGen)
    ensures g.calls == [GenerateKey(KeyGenRequestFor(name, email, passphrase))]
    ensures g.report == KeyPairGenerated <==> l.generateKey(KeyGenRequestFor(name, email, passphrase)).Some?
    ensures g.report == KeyPairGenerated || g.report == KeyGenFailed
    ensures g.report == KeyPairGenerated <==> g.downloads != []
    ensures g.report == KeyPairGenerated ==>
      var pair := l.generateKey(KeyGenRequestFor(name, email, passphrase));
      var base := BaseName(name, email);
      pair.Some? &&
      g.downloads == [Download(base + "-public.asc", pair.value.publicKey, KEY_MIME_TYPE),
                      Download(base + "-private.asc", pair.value.privateKey, KEY_MIME_TYPE)]
  {
    var request := KeyGenRequestFor(name, email, passphrase);
    match l.generateKey(request)
    case None => KeyGen(KeyGenFailed, [GenerateKey(request)], [])
    case Some(pair) =>
      var base := BaseName(name, email);
      KeyGen(KeyPairGenerated, [GenerateKey(request)],
             [Download(base + "-public.asc", pair.publicKey, KEY_MIME_TYPE),
              Download(base + "-private.asc", pair.privateKey, KEY_MIME_TYPE)])
  }

  /** The empty user-ID list of `generateKeypair` is unreachable: once the identity check has
      passed there is exactly one user ID, carrying whichever of name and email is not empty. */
  lemma OneUserIdAfterIdentityCheck(name: string, email: string, passphrase: string)
    requires name != "" || email != ""
    ensures |KeyGenRequestFor(name, email, passphrase).userIds| == 1
    ensures var id := KeyGenRequestFor(name, email, passphrase).userIds[0];
      (id.name.Some? || id.email.Some?) &&
      (id.name.Some? ==> id.name.value == name) && (id.email.Some? ==> id.email.value == email)
  {
  }

  /** The email names the files when there is one; otherwise the name does. */
  lemma BaseNamePrefersEmail(name: string, email: string)
    ensures email != "" ==> BaseName(name, email) == Filename.Sanitize(email)
    ensures email == "" && name != "" ==> BaseName(name, email) == Filename.Sanitize(name)
  {
  }

  /** Both downloads of a generated keypair get distinct names made of the sanitised base and
      a fixed suffix, so the base never exceeds 64 characters of `[a-z0-9._-]` nor starts with a
      hyphen. */
  lemma KeyGenFileNames(lib: Option<Library>, nameInput: string, emailInput: string,
                        passphraseInput: string)
    ensures var g := GenerateKeypair(lib, nameInput, emailInput, passphraseInput);
      g.report == KeyPairGenerated ==>
        var base := BaseName(Trim(nameInput), Trim(emailInput));
        |base| <= Filename.MAX_LENGTH && Filename.AllAllowed(base) && (base == "" || base[0] != '-') &&
        g.downloads[0].fileName != g.downloads[1].fileName &&
        g.downloads[0].fileName[|base|..] == "-public.asc" &&
        g.downloads[1].fileName[|base|..] == "-private.asc"
  {
    var g := GenerateKeypair(lib, nameInput, emailInput, passphraseInput);
    if g.report == KeyPairGenerated {
      var base := BaseName(Trim(nameInput), Trim(emailInput));
      assert |g.downloads[0].fileName| != |g.downloads[1].fileName|;
    }
  }

  /** A name made only of symbols, with no email, gives files with an empty base: the sanitiser
      returns "" for it and the "key" fallback applies only to blank input. */
  lemma SymbolNameGivesBareSuffixes(lib: Option<Library>, nameInput: string, passphraseInput: string)
    requires nameInput == "!!!"
    ensures var g := GenerateKeypair(lib, nameInput, "", passphraseInput);
      g.report == KeyPairGenerated ==>
        g.downloads[0].fileName == "-public.asc" && g.downloads[1].fileName == "-private.asc"
  {
    if lib.Some? {
      TrimOfTrimmed(nameInput);
      assert Trim("") == "";
      Filename.SanitizeNotIdempotentOnSymbols(nameInput);
      assert BaseName(nameInput, "") == "";
      assert GenerateKeypair(lib, nameInput, "", passphraseInput) ==
             GenerateFor(lib.value, nameInput, "", passphraseInput);
    }
  }
}
