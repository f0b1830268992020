/** The page's mutable state and its event handlers. Each handler performs the steps of the
    source in order, with its early returns, and is proved to leave the page in the state the
    matching function of module `Handlers` describes. */
module Controller {
  import opened Js
  import opened OpenPgp
  import opened Handlers
  import Armor
  import Filename

  /** Which of the optional elements the page has. The text area and the action button are
      always there: wiring the events fails without them. */
  datatype Page = Page(hasPassphraseInput: bool, hasRememberCheckbox: bool, hasKeyGenStatus: bool)

  class Session {
    // The three key slots of the page.
    var defaultPublicKey: string
    var uploadedPublicKey: string
    var uploadedPrivateKey: string

    // The text area, the action button's caption, and the main status line.
    var text: string
    var actionCaption: string
    var status: Option<Report>

    // The messages under the two file pickers and the keypair status line.
    var publicKeyInfo: Option<UploadInfo>
    var privateKeyInfo: Option<UploadInfo>
    var keyGenStatus: Option<Report>

    // The passphrase field, the "remember" check box, and `localStorage`.
    var passphrase: string
    var remember: bool
    var storage: map<string, string>

    const page: Page

    /** Every non-empty key slot holds text containing its header, and the button shows the
        label of the action a click would dispatch. */
    ghost predicate Valid()
      reads this
    {
      SlotsHold() && CaptionMatches()
    }

    /** Every non-empty key slot holds text containing its header. */
    ghost predicate SlotsHold()
      reads this`defaultPublicKey, this`uploadedPublicKey, this`uploadedPrivateKey
    {
      SlotHolds(defaultPublicKey, PublicKey) &&
      SlotHolds(uploadedPublicKey, PublicKey) &&
      SlotHolds(uploadedPrivateKey, PrivateKey)
    }

    /** The button shows the label of the action a click on it would dispatch. */
    ghost predicate CaptionMatches()
      reads this`text, this`actionCaption
    {
      actionCaption == Armor.ButtonLabel(text)
    }

    /** The passphrase field as the decrypt handler reads it. */
    function PassphraseField(): Option<string>
      reads this`passphrase
    {
      if page.hasPassphraseInput then Some(passphrase) else None
    }

    /** Whether both passphrase controls are on the page. */
    predicate HasPassphraseControls() {
      page.hasPassphraseInput && page.hasRememberCheckbox
    }

    /** The main status line and the text area show what outcome `o` says, `before` being the
        text before the handler ran. */
    ghost predicate Shows(o: Outcome, before: string)
      reads this`status, this`text
    {
      status == Some(o.report) && text == (if o.written.Some? then o.written.value else before)
    }

    /** `DOMContentLoaded`, apart from the default-key load it starts (`LoadDefaultPublicKey`).
        The text area, the passphrase field and the check box start with whatever the page
        holds (`initialText`, `initialPassphrase`, `initialRemember`); the slots are empty; the
        remembered passphrase is restored from `localStorage`, checking the box; and the button
        is labelled for the text. */
    constructor (page: Page, initialText: string, initialPassphrase: string, initialRemember: bool,
                 storageWorks: bool, storage: map<string, string>)
      ensures Valid()
      ensures this.page == page && this.storage == storage
      ensures defaultPublicKey == "" && uploadedPublicKey == "" && uploadedPrivateKey == ""
      ensures text == initialText && actionCaption == Armor.ButtonLabel(initialText)
      ensures status.None? && keyGenStatus.None?
      ensures publicKeyInfo.None? && privateKeyInfo.None?
      ensures var restored := RestoredPassphrase(storageWorks,
                                                 page.hasPassphraseInput && page.hasRememberCheckbox,
                                                 storage);
        remember == (restored.Some? || initialRemember) &&
        passphrase == (if restored.Some? then restored.value else initialPassphrase)
    {
      this.page := page;
      this.storage := storage;
      defaultPublicKey, uploadedPublicKey, uploadedPrivateKey := "", "", "";
      text, status := initialText, None;
      publicKeyInfo, privateKeyInfo, keyGenStatus := None, None, None;
      passphrase, remember := initialPassphrase, initialRemember;
      new;
      RestorePassphrase(storageWorks);
      UpdateActionButtons();
    }

    /** The startup restore of `DOMContentLoaded`, with whether `localStorage` works: a stored,
        non-empty passphrase fills the field and checks the box when both are on the page. */
    method RestorePassphrase(storageWorks: bool)
      modifies this`passphrase, this`remember
      ensures var restored := RestoredPassphrase(storageWorks, HasPassphraseControls(), storage);
        remember == (restored.Some? || old(remember)) &&
        passphrase == (if restored.Some? then restored.value else old(passphrase))
    {
      if storageWorks {
        var stored := if PASSPHRASE_STORAGE_KEY in storage then Some(storage[PASSPHRASE_STORAGE_KEY])
                      else None;
        if stored.Some? && stored.value != "" && page.hasPassphraseInput && page.hasRememberCheckbox {
          passphrase := stored.value;
          remember := true;
        }
      }
    }

    /** `updateActionButtonsBasedOnText` */
    method UpdateActionButtons()
      modifies this`actionCaption
      ensures actionCaption == Armor.ButtonLabel(text)
    {
      var looksLikePgp := Armor.IsLikelyPgpMessage(text);
      if looksLikePgp {
        actionCaption := "Decrypt";
      } else {
        actionCaption := "Encrypt";
      }
    }

    /** The text area's `input` event. */
    method EditText(value: string)
      requires Valid()
      modifies this`text, this`actionCaption
      ensures Valid() && text == value
    {
      text := value;
      UpdateActionButtons();
    }

    /** `handleKeyUpload`: only the uploaded public key slot and its message change. */
    method UploadPublicKey(file: FileChoice)
      requires Valid()
      modifies this`uploadedPublicKey, this`publicKeyInfo
      ensures Valid()
      ensures var u := UploadKey(PublicKey, file);
        uploadedPublicKey == u.slot && publicKeyInfo == Some(u.info)
    {
      if file.NoFile? {
        uploadedPublicKey := "";
        publicKeyInfo := Some(NoneSelected);
        return;
      }
      if file.contents.None? {
        uploadedPublicKey := "";
        publicKeyInfo := Some(ReadFailed);
        return;
      }
      var contents := file.contents.value;
      if !Contains(contents, Header(PublicKey)) {
        uploadedPublicKey := "";
        publicKeyInfo := Some(NotAKey);
        return;
      }
      uploadedPublicKey := contents;
      publicKeyInfo := Some(LoadedFrom(file.name));
    }

    /** `handlePrivateKeyUpload`: only the private key slot and its message change. */
    method UploadPrivateKey(file: FileChoice)
      requires Valid()
      modifies this`uploadedPrivateKey, this`privateKeyInfo
      ensures Valid()
      ensures var u := UploadKey(PrivateKey, file);
        uploadedPrivateKey == u.slot && privateKeyInfo == Some(u.info)
    {
      if file.NoFile? {
        uploadedPrivateKey := "";
        privateKeyInfo := Some(NoneSelected);
        return;
      }
      if file.contents.None? {
        uploadedPrivateKey := "";
        privateKeyInfo := Some(ReadFailed);
        return;
      }
      var contents := file.contents.value;
      if !Contains(contents, Header(PrivateKey)) {
        uploadedPrivateKey := "";
        privateKeyInfo := Some(NotAKey);
        return;
      }
      uploadedPrivateKey := contents;
      privateKeyInfo := Some(LoadedFrom(file.name));
    }

    /** `loadDefaultPublicKey`, given what the fetch returned. */
    method LoadDefaultPublicKey(fetch: Fetch)
      requires Valid()
      modifies this`defaultPublicKey, this`status
      ensures Valid()
      ensures var d := LoadDefault(fetch, old(defaultPublicKey));
        defaultPublicKey == d.slot && status == (if d.report.Some? then d.report else old(status))
    {
      if fetch.FetchThrew? {
        status := Some(DefaultKeyUnreachable);
        return;
      }
      if fetch.NotOk? {
        status := Some(NoDefaultKeyFile);
        return;
      }
      var body := fetch.text;
      if !Contains(body, Header(PublicKey)) {
        status := Some(DefaultKeyInvalid);
        return;
      }
      defaultPublicKey := body;
    }

    /** `encryptCurrentText`, with the library (`None` when it failed to load) and the value of
        the key-mode select; returns the library calls it made. */
    method EncryptCurrentText(lib: Option<Library>, keyMode: string) returns (calls: seq<Call>)
      requires Valid()
      modifies this`text, this`actionCaption, this`status
      ensures Valid()
      ensures var o := EncryptText(lib, old(text), keyMode, uploadedPublicKey, defaultPublicKey);
        Shows(o, old(text)) && calls == o.calls
    {
      if lib.None? {
        calls := [];
        status := Some(LibraryMissing);
        return;
      }
      calls := EncryptWithLibrary(lib.value, keyMode);
    }

    /** `encryptCurrentText` once the library is known to be there: the blank-text check, the
        choice of key slot and its check, then the `try` block. */
    method EncryptWithLibrary(l: Library, keyMode: string) returns (calls: seq<Call>)
      requires Valid()
      modifies this`text, this`actionCaption, this`status
      ensures Valid()
      ensures var o := EncryptText(Some(l), old(text), keyMode, uploadedPublicKey, defaultPublicKey);
        Shows(o, old(text)) && calls == o.calls
    {
      calls := [];
      var plaintext := text;
      if IsBlank(plaintext) {
        status := Some(EmptyPlaintext);
        return;
      }
      var useUploaded := keyMode == UPLOADED_MODE;
      var armoredKey := "";
      if useUploaded {
        if uploadedPublicKey == "" {
          status := Some(NoUploadedPublicKey);
          return;
        }
        armoredKey := uploadedPublicKey;
      } else {
        if defaultPublicKey == "" {
          status := Some(NoDefaultPublicKey);
          return;
        }
        armoredKey := defaultPublicKey;
      }
      status := Some(Encrypting);
      calls := EncryptWithKey(l, plaintext, armoredKey);
    }

    /** The part of `encryptCurrentText` inside its `try`: read the key, then make the message
        and encrypt it. */
    method EncryptWithKey(l: Library, plaintext: string, armoredKey: string)
      returns (calls: seq<Call>)
      requires Valid()
      modifies this`text, this`actionCaption, this`status
      ensures Valid()
      ensures var o := EncryptUnder(l, plaintext, armoredKey);
        Shows(o, old(text)) && calls == o.calls
    {
      calls := [ReadKey(armoredKey)];
      var publicKey := l.readKey(armoredKey);
      if publicKey.None? {
        status := Some(EncryptFailed);
        return;
      }
      calls := EncryptWithReadKey(l, plaintext, armoredKey, publicKey.value);
    }

    /** The rest of the `try` of `encryptCurrentText` once the key is read: make the message,
        encrypt it, and on success write the ciphertext and relabel the button. */
    method EncryptWithReadKey(l: Library, plaintext: string, armoredKey: string, publicKey: Key)
      returns (calls: seq<Call>)
      requires Valid()
      modifies this`text, this`actionCaption, this`status
      ensures Valid()
      ensures var o := EncryptUnderKey(l, plaintext, armoredKey, publicKey);
        Shows(o, old(text)) && calls == o.calls
    {
      calls := [ReadKey(armoredKey), CreateMessage(plaintext)];
      var message := l.createMessage(plaintext);
      if message.None? {
        status := Some(EncryptFailed);
        return;
      }
      calls := calls + [EncryptWith(message.value, publicKey)];
      var encrypted := l.encrypt(message.value, publicKey);
      if encrypted.None? {
        status := Some(EncryptFailed);
        return;
      }
      text := encrypted.value;
      status := Some(Encrypted);
      UpdateActionButtons();
    }

    /** `decryptCurrentText`, with the library; returns the library calls it made. */
    method DecryptCurrentText(lib: Option<Library>) returns (calls: seq<Call>)
      requires Valid()
      modifies this`text, this`actionCaption, this`status
      ensures Valid()
      ensures var o := DecryptText(lib, old(text), PassphraseField(), uploadedPrivateKey);
        Shows(o, old(text)) && calls == o.calls
    {
      if lib.None? {
        calls := [];
        status := Some(LibraryMissing);
        return;
      }
      calls := DecryptWithLibrary(lib.value);
    }

    /** `decryptCurrentText` once the library is known to be there: the blank-text and
        private-key checks, then the `try` block. */
    method DecryptWithLibrary(l: Library) returns (calls: seq<Call>)
      requires Valid()
      modifies this`text, this`actionCaption, this`status
      ensures Valid()
      ensures var o := DecryptText(Some(l), old(text), PassphraseField(), uploadedPrivateKey);
        Shows(o, old(text)) && calls == o.calls
    {
      calls := [];
      var ciphertext := text;
      if IsBlank(ciphertext) {
        status := Some(EmptyCiphertext);
        return;
      }
      if uploadedPrivateKey == "" {
        status := Some(NoPrivateKey);
        return;
      }
      status := Some(Decrypting);
      calls := DecryptWithSlot(l, ciphertext);
    }

    /** The `try` block of `decryptCurrentText`: read the private key from its slot, read the
        passphrase field (which throws when the page has none), then unlock and decrypt. */
    method DecryptWithSlot(l: Library, ciphertext: string) returns (calls: seq<Call>)
      requires Valid()
      modifies this`text, this`actionCaption, this`status
      ensures Valid()
      ensures var o := DecryptFromSlot(l, ciphertext, PassphraseField(), uploadedPrivateKey);
        Shows(o, old(text)) && calls == o.calls
    {
      calls := [ReadPrivateKey(uploadedPrivateKey)];
      var privateKey := l.readPrivateKey(uploadedPrivateKey);
      if privateKey.None? || !page.hasPassphraseInput {
        status := Some(DecryptFailed);
        return;
      }
      calls := UnlockAndDecrypt(l, ciphertext, privateKey.value, passphrase);
    }

    /** The part of `decryptCurrentText` after the private key has been read from the private
        key slot: unlock it with the passphrase as typed unless that is blank, then decrypt. */
    method UnlockAndDecrypt(l: Library, ciphertext: string, privateKey: Key, typed: string)
      returns (calls: seq<Call>)
      requires Valid()
      modifies this`text, this`actionCaption, this`status
      ensures Valid()
      ensures var o := UnlockThenDecrypt(l, ciphertext, uploadedPrivateKey, privateKey, typed);
        Shows(o, old(text)) && calls == o.calls
    {
      if IsBlank(typed) {
        calls := ReadAndDecrypt(l, ciphertext, privateKey, [ReadPrivateKey(uploadedPrivateKey)]);
      } else {
        calls := UnlockThenRead(l, ciphertext, privateKey, typed);
      }
    }

    /** The inner `try` of `decryptCurrentText`, for a passphrase that is not blank: unlock the
        key with it, report a rejection and stop, or go on to decrypt with the unlocked key. */
    method UnlockThenRead(l: Library, ciphertext: string, privateKey: Key, typed: string)
      returns (calls: seq<Call>)
      requires Valid() && !IsBlank(typed)
      modifies this`text, this`actionCaption, this`status
      ensures Valid()
      ensures var o := UnlockWith(l, ciphertext, uploadedPrivateKey, privateKey, typed);
        Shows(o, old(text)) && calls == o.calls
    {
      calls := [ReadPrivateKey(uploadedPrivateKey), DecryptKey(privateKey, typed)];
      var unlocked := l.decryptKey(privateKey, typed);
      if unlocked.None? {
        status := Some(UnlockFailed);
        return;
      }
      calls := ReadAndDecrypt(l, ciphertext, unlocked.value, calls);
    }

    /** The end of `decryptCurrentText`, once the decryption key is known: read the message,
        decrypt it, and on success write the result and relabel the button. */
    method ReadAndDecrypt(l: Library, ciphertext: string, key: Key, before: seq<Call>)
      returns (calls: seq<Call>)
      requires Valid()
      modifies this`text, this`actionCaption, this`status
      ensures Valid()
      ensures var o := FinishDecrypt(l, ciphertext, key, before);
        Shows(o, old(text)) && calls == o.calls
    {
      calls := before + [ReadMessage(ciphertext)];
      var message := l.readMessage(ciphertext);
      if message.None? {
        status := Some(DecryptFailed);
        return;
      }
      calls := before + [ReadMessage(ciphertext), DecryptWith(message.value, key)];
      var decrypted := l.decrypt(message.value, key);
      if decrypted.None? {
        status := Some(DecryptFailed);
        return;
      }
      text := decrypted.value;
      status := Some(Decrypted);
      UpdateActionButtons();
    }

    /** A click on the action button: decrypts when the text looks like a PGP message and
        encrypts otherwise, which is always the action the button's caption names. */
    method ClickAction(lib: Option<Library>, keyMode: string)
      returns (performed: Armor.Action, calls: seq<Call>)
      requires Valid()
      modifies this`text, this`actionCaption, this`status
      ensures Valid()
      ensures performed == Armor.ActionFor(old(text)) && Armor.Label(performed) == old(actionCaption)
      ensures performed == Armor.Decrypt ==>
        var o := DecryptText(lib, old(text), PassphraseField(), uploadedPrivateKey);
        Shows(o, old(text)) && calls == o.calls
      ensures performed == Armor.Encrypt ==>
        var o := EncryptText(lib, old(text), keyMode, uploadedPublicKey, defaultPublicKey);
        Shows(o, old(text)) && calls == o.calls
    {
      var looksLikePgp := Armor.IsLikelyPgpMessage(text);
      if looksLikePgp {
        performed := Armor.Decrypt;
        calls := DecryptCurrentText(lib);
      } else {
        performed := Armor.Encrypt;
        calls := EncryptCurrentText(lib, keyMode);
      }
    }

    /** `syncStoredPassphrase`, with whether `localStorage` works (it throws when disabled). */
    method SyncStoredPassphrase(storageWorks: bool)
      modifies this`storage
      ensures storage == SyncedStore(HasPassphraseControls(), storageWorks, remember, passphrase,
                                     old(storage))
    {
      if !page.hasPassphraseInput || !page.hasRememberCheckbox {
        return;
      }
      if !storageWorks {
        return;
      }
      if remember && passphrase != "" {
        storage := storage[PASSPHRASE_STORAGE_KEY := passphrase];
      } else {
        storage := storage - {PASSPHRASE_STORAGE_KEY};
      }
    }

    /** The passphrase field's `input` event. */
    method EditPassphrase(value: string, storageWorks: bool)
      requires page.hasPassphraseInput
      modifies this`passphrase, this`storage
      ensures passphrase == value
      ensures storage == SyncedStore(HasPassphraseControls(), storageWorks, remember, value,
                                     old(storage))
    {
      passphrase := value;
      SyncStoredPassphrase(storageWorks);
    }

    /** The check box's `change` event. */
    method SetRemember(checked: bool, storageWorks: bool)
      requires page.hasRememberCheckbox
      modifies this`remember, this`storage
      ensures remember == checked
      ensures storage == SyncedStore(HasPassphraseControls(), storageWorks, checked, passphrase,
                                     old(storage))
    {
      remember := checked;
      SyncStoredPassphrase(storageWorks);
    }

    /** `generateAndDownloadKeypair`, with the library and the three form values; returns the
        library calls and the downloads it started. Only the keypair status line changes, and
        only when the page has one. */
    method GenerateAndDownloadKeypair(lib: Option<Library>, nameInput: string, emailInput: string,
                                      passphraseInput: string)
      returns (calls: seq<Call>, downloads: seq<Download>)
      modifies this`keyGenStatus
      ensures var g := GenerateKeypair(lib, nameInput, emailInput, passphraseInput);
        calls == g.calls && downloads == g.downloads &&
        keyGenStatus == (if page.hasKeyGenStatus then Some(g.report) else old(keyGenStatus))
    {
      calls, downloads := [], [];
      if lib.None? {
        SetKeyGenStatus(LibraryMissing);
        return;
      }
      var name := Trim(nameInput);
      var email := Trim(emailInput);
      if name == "" && email == "" {
        SetKeyGenStatus(NoIdentity);
        return;
      }
      SetKeyGenStatus(Generating);
      calls, downloads := GenerateAndDownload(lib.value, name, email, passphraseInput);
    }

    /** The `try` block of `generateAndDownloadKeypair`, with the trimmed name and email. */
    method GenerateAndDownload(l: Library, name: string, email: string, typed: string)
      returns (calls: seq<Call>, downloads: seq<Download>)
      modifies this`keyGenStatus
      ensures var g := GenerateFor(l, name, email, typed);
        calls == g.calls && downloads == g.downloads &&
        keyGenStatus == (if page.hasKeyGenStatus then Some(g.report) else old(keyGenStatus))
    {
      downloads := [];
      var userIds := if name != "" || email != "" then [UserId(OrUndefined(name), OrUndefined(email))]
                     else [];
      var request := KeyGenRequest("rsa", 4096, userIds, OrUndefined(typed));
      calls := [GenerateKey(request)];
      var generated := l.generateKey(request);
      if generated.None? {
        SetKeyGenStatus(KeyGenFailed);
        return;
      }
      var base := Filename.Sanitize(OrElse(email, OrElse(name, Filename.FALLBACK)));
      downloads := [Download(base + "-public.asc", generated.value.publicKey, KEY_MIME_TYPE),
                    Download(base + "-private.asc", generated.value.privateKey, KEY_MIME_TYPE)];
      SetKeyGenStatus(KeyPairGenerated);
    }

    /** `setKeyGenStatus`: does nothing when the page has no keypair status line. */
    method SetKeyGenStatus(report: Report)
      modifies this`keyGenStatus
      ensures keyGenStatus == (if page.hasKeyGenStatus then Some(report) else old(keyGenStatus))
    {
      if page.hasKeyGenStatus {
        keyGenStatus := Some(report);
      }
    }
  }
}
