# pgp-lite front end, modelled in Dafny

pgp-lite is a single-page browser tool that encrypts and decrypts text with OpenPGP.js and
generates RSA keypairs, all on the client. Its logic lives in `main.js`. This project models
the parts of it that make decisions:

- the filename sanitiser `sanitizeForFilename` (module `Filename`, on top of the JavaScript
  string operations `trim`, `replace(/^\s+/, "")`, `includes` and `startsWith` in module `Js`);
- the armor heuristic `isLikelyPgpMessage`, the caption of the action button, and the action a
  click dispatches (module `Armor`);
- what each event handler decides: key uploads, the default-key load, encryption, decryption,
  the remembered passphrase, and keypair generation (module `Handlers`, as pure functions of
  what the handler reads);
- the page's mutable state, as class `Controller.Session`: its three key slots, the text area,
  the button caption, the status lines, the passphrase controls and `localStorage`. Each handler
  is a method that performs the source's steps in order, with the same early returns, and is
  proved to leave the state that the matching `Handlers` function describes. Its invariant
  `Valid()` says every non-empty key slot holds text containing its armor header, and the
  button's caption names the action a click would perform.

OpenPGP.js is module `OpenPgp`: keys and messages are opaque handles, and each library entry
point is a total function whose `None` result stands for the call throwing. The handlers
return the library calls they made, in order, so that "before any library call" and "the
passphrase passed to `decryptKey`" can be stated. The network fetch, the file picker, and
whether `localStorage` works are parameters of the methods that use them.

Four plain definitions in module `Js` stand for JavaScript idioms and carry no contract of
their own, so they have no row below:
- `Js.Contains(s, t)` is `s.includes(t)` (main.js:35, 62, 324, 369);
- `Js.StartsWith(s, p)` is `s.startsWith(p)` (main.js:324);
- `Js.OrElse(a, b)` is `a || b` on strings, where "" is falsy (main.js:286);
- `Js.OrUndefined(s)` is `s || undefined` (main.js:273-274, 283).

`sanitizeForFilename` falls back to "key" only for blank input (main.js:210-212). An identity
made only of symbols, such as "!!!", is not blank: it collapses to "-", which is then stripped
to "", and the keypair files are named `-public.asc` and
`-private.asc` (see `Filename.SanitizeNotIdempotentOnSymbols` and
`Handlers.SymbolNameGivesBareSuffixes`).

## Model

| member | source | states |
|---|---|---|
| Js.Trim | main.js:210 | the trimmed text neither starts nor ends with ECMAScript whitespace |
| Js.TrimSplits | main.js:210 | `trim` removes only whitespace, and only from the two ends |
| Js.TrimStart | main.js:323 | `replace(/^\s+/, "")` removes a run of whitespace from the start and keeps a suffix that does not start with whitespace |
| Js.TrimEmptyIffAllWhitespace | main.js:85 | `s.trim()` is "" exactly when every character of `s` is whitespace |
| Js.IsBlank | main.js:85 | `!s.trim()` holds exactly when every character of `s` is whitespace |
| Js.TrimStartSkipsWhitespace | main.js:323 | leading whitespace makes no difference to `replace(/^\s+/, "")` |
| Js.TrimIdempotent | main.js:210 | trimming twice is trimming once |
| Js.OccursAtShift | main.js:324 | an occurrence in a suffix is an occurrence in the whole text, shifted |
| Filename.LowerChar | main.js:215 | an ASCII capital becomes its own small letter, every other character is kept, and no capital is left |
| Filename.ToLowerAscii | main.js:215 | `toLowerCase` on ASCII: same length, each capital replaced by its small letter, every other character kept |
| Filename.StripHyphens | main.js:217 | stripping never lengthens the text, and leaves a text without a hyphen at either end as it is |
| Filename.Truncate | main.js:218 | `slice(0, 64)`: the first 64 characters, or the whole text when it is shorter |
| Filename.CollapseDisallowed | main.js:216 | replacing each run of characters outside `[a-z0-9._-]` by "-" leaves only allowed characters and never lengthens the text |
| Filename.CollapseKeepsSignificant | main.js:216 | the collapse keeps every letter, digit, `.` and `_` in order |
| Filename.CollapseRun | main.js:216 | a whole run of disallowed characters becomes a single hyphen |
| Filename.CollapseAllowed | main.js:216 | allowed characters pass through the collapse unchanged |
| Filename.StripSplits | main.js:217 | stripping removes only hyphens, and only from the two ends |
| Filename.StripEnds | main.js:217 | the stripped text neither starts nor ends with a hyphen |
| Filename.StripKeepsAllowed | main.js:217 | stripping keeps the text within `[a-z0-9._-]` |
| Filename.StripKeepsSignificant | main.js:217 | stripping removes no letter, digit, `.` or `_` |
| Filename.StripEmptyIff | main.js:217 | the stripped text is empty exactly when it had no letter, digit, `.` or `_` |
| Filename.UntruncatedKeepsSignificant | main.js:214-217 | before the cut, the pipeline keeps every significant character of the lower-cased input, in order |
| Filename.Sanitize | main.js:209-219 | the result has at most 64 characters, all in `[a-z0-9._-]`; it never starts with "-"; blank input gives "key"; a trailing "-" appears only when the cut at 64 characters left it |
| Filename.SanitizeEmptyIff | main.js:209-219 | the result is "" exactly when the input is not blank but has no letter, digit, `.` or `_` after lower-casing |
| Filename.SanitizeKeepsSignificant | main.js:209-219 | for non-blank input, the significant characters of the result are a prefix of those of the lower-cased input, and all of them when no cut happened |
| Filename.SanitizeOfAllowed | main.js:214-218 | on lower-case allowed text the sanitiser only strips hyphens and cuts |
| Filename.SanitizeOfClean | main.js:209-219 | a name that is already clean is its own sanitised form |
| Filename.SanitizeIdempotent | main.js:209-219 | sanitising twice changes nothing unless the first result is "" or ends with a hyphen |
| Filename.SanitizeNotIdempotentOnSymbols | main.js:211-217 | "!!!" gives "", and sanitising "" gives "key" |
| Filename.SanitizeJaneDoe | main.js:209-219 | "Jane Doe!!" gives "jane-doe" |
| Filename.CollapseJaneDoe | main.js:216 | "jane doe!!" collapses to "jane-doe-" |
| Filename.SanitizeCutLeavesHyphen | main.js:217-218 | 63 letters, "-" and "b" give the 63 letters and a trailing "-": the cut runs after the strip |
| Armor.IsLikelyPgpMessage | main.js:319-325 | the empty text is never a message; a message starts with "-----BEGIN PGP" after leading whitespace |
| Armor.ButtonLabel | main.js:327-354 | the caption is "Decrypt" exactly when the text looks like a message, and is always the label of the action a click dispatches |
| Armor.ActionFor | main.js:403-411 | the empty text is encrypted, and decryption is chosen only for a text starting with the BEGIN marker after whitespace |
| Armor.NoEndMarkerInsideBegin | main.js:324 | no window inside or across a leading BEGIN marker spells the END marker |
| Armor.EndMarkerAfterBegin | main.js:324 | the END marker found by `includes` begins after the leading BEGIN marker |
| Armor.LikelyIffMarkersInOrder | main.js:319-325 | a text looks like a message exactly when, after leading whitespace, it starts with the BEGIN marker and the END marker follows it |
| Armor.LeadingWhitespaceIrrelevant | main.js:323 | leading whitespace does not change the classification |
| Armor.MarkersDetected | main.js:323-324 | any text starting with the BEGIN marker after whitespace, and containing the END marker, is classified as a message |
| Armor.ArmoredMessageDetected | main.js:319-325 | an armored message with any body, after any whitespace, is decrypted on click and labels the button "Decrypt" |
| Armor.NoHeaderMeansEncrypt | main.js:403-411 | without the BEGIN marker at the start the button says "Encrypt" and a click encrypts |
| Armor.PlaintextCanLookArmored | main.js:324 | plaintext that merely mentions both markers is taken for a message |
| Handlers.UploadKey | main.js:21-73 | the slot becomes the file's text exactly when the file was read and contains the kind's header, and is "" otherwise; the message is "none selected" without a file, "read failed" when the read throws, "not a key" without the header, and names the file on success |
| Handlers.InfoTextsDistinct | main.js:21-73 | the four picker messages of a kind of key are pairwise different, and a loaded file's message ends with the file's name |
| Handlers.LoadDefault | main.js:356-387 | the default slot is replaced only by a fetched text containing the public key header; a fetch that throws reports the key unreachable, a non-OK response reports no key file, a body without the header reports an invalid key, and each failure leaves the slot as it was |
| Handlers.SelectedKey | main.js:90-111 | the key used is one of the two slots, and the uploaded one exactly when the key mode is "uploaded" |
| Handlers.EncryptText | main.js:75-129 | missing library, blank text and empty selected slot are reported in that order with no library call; otherwise the first call reads the selected key; encryption is reported, and the text area written, exactly when the checks pass and `readKey`, `createMessage` and `encrypt` all succeed, with the encryption of the text under that key |
| Handlers.EncryptUnder | main.js:115-128 | inside the `try`, the result is the encryption error exactly when one of the three calls rejects; success writes the library's ciphertext after the three calls in order |
| Handlers.EncryptUnderKey | main.js:117-124 | once the key is read: the message is made and encrypted, success exactly when both calls succeed, and then the ciphertext is written |
| Handlers.EncryptReadsSelectedSlot | main.js:90-111 | the uploaded key is read exactly when the key mode is "uploaded" |
| Handlers.DecryptionKey | main.js:159-171 | a blank passphrase uses the key as read; otherwise the key is whatever `decryptKey` returns for the key and the passphrase, and there is no key exactly when it rejects the passphrase |
| Handlers.DecryptText | main.js:131-191 | missing library, blank text and missing private key are reported in that order with no library call; unlocking is attempted exactly when the private key was read and the trimmed passphrase is not empty, with the untrimmed passphrase; the passphrase error is reported exactly when `decryptKey` rejects it, and then no message is read; decryption is reported, and the text area written, exactly when every library call succeeds, with the decryption under the (unlocked) key |
| Handlers.DecryptFromSlot | main.js:153-190 | the same for the `try` block alone; a missing passphrase field ends in the decryption error |
| Handlers.UnlockThenDecrypt | main.js:157-184 | unlocking happens exactly when the passphrase is not blank, and only with that passphrase; the passphrase error exactly when the unlock is rejected; success exactly when the unlock, the message read and the decryption succeed |
| Handlers.UnlockWith | main.js:162-184 | for a non-blank passphrase: `decryptKey` is the second call; its rejection gives the passphrase error and stops before `readMessage`; otherwise success exactly when the message is read and decrypted under the unlocked key |
| Handlers.FinishDecrypt | main.js:173-184 | the message is read, then decrypted; the earlier calls are kept; decryption is reported, and the data written, exactly when both calls succeed |
| Handlers.SyncedStore | main.js:297-317 | with both controls present and storage working, the entry holds the passphrase verbatim exactly when the box is checked and the passphrase is not empty, and is removed otherwise; otherwise nothing changes; no other entry is touched |
| Handlers.RestoredPassphrase | main.js:438-452 | a passphrase is restored exactly when storage works, both controls exist and a non-empty one is stored, and it is the stored one |
| Handlers.RememberedPassphraseRestored | main.js:306-312 | what a sync stores is what the next startup restores: the passphrase when remembered and non-empty, else nothing |
| Handlers.UncheckedForgets | main.js:312 | after unchecking the box nothing is restored |
| Handlers.KeyGenRequestFor | main.js:269-284 | RSA 4096; one user ID exactly when the name or the email is not empty, carrying each non-empty one; the passphrase exactly when it is not empty |
| Handlers.BaseName | main.js:286 | the base is at most 64 characters in `[a-z0-9._-]`, and "key" when both name and email are empty |
| Handlers.GenerateKeypair | main.js:233-295 | a missing library or blank name and email stop with no library call; otherwise exactly one `generateKey` call with RSA 4096, the trimmed identity and the passphrase as typed; the keypair is reported exactly when that call succeeds, and then the downloads are `<base>-public.asc` and `<base>-private.asc` |
| Handlers.GenerateFor | main.js:268-294 | the `try` block: one `generateKey` call, and the two downloads exactly when it succeeds |
| Handlers.OneUserIdAfterIdentityCheck | main.js:261-277 | after the identity check there is always exactly one user ID, so the empty list is unreachable |
| Handlers.BaseNamePrefersEmail | main.js:286 | the email names the files when there is one; otherwise the name does |
| Handlers.KeyGenFileNames | main.js:286-289 | the two file names differ, end in `-public.asc` and `-private.asc`, and share a base of at most 64 characters in `[a-z0-9._-]` that does not start with "-" |
| Handlers.SymbolNameGivesBareSuffixes | main.js:286-289 | the name "!!!" with no email gives the files `-public.asc` and `-private.asc` |
| Controller.Session.constructor | main.js:435-454 | startup: the three key slots start empty, as declared at main.js:4-6; the text area, passphrase field and box keep their page values unless `RestoredPassphrase` restores a passphrase, which also checks the box; the button is labelled for the text |
| Controller.Session.RestorePassphrase | main.js:437-452 | the passphrase field and the box become what `RestoredPassphrase` gives, and keep their values when nothing is restored |
| Controller.Session.UpdateActionButtons | main.js:327-354 | the caption becomes the label for the current text |
| Controller.Session.EditText | main.js:415-417 | typing relabels the button and keeps the invariant |
| Controller.Session.UploadPublicKey | main.js:21-46 | only the public key slot and its message change, as `UploadKey` says |
| Controller.Session.UploadPrivateKey | main.js:48-73 | only the private key slot and its message change, as `UploadKey` says |
| Controller.Session.LoadDefaultPublicKey | main.js:356-387 | the default slot and the status change as `LoadDefault` says; on success the status is left alone |
| Controller.Session.EncryptCurrentText | main.js:75-129 | the status, the text area and the calls are those of `EncryptText`; the key slots do not change |
| Controller.Session.EncryptWithLibrary | main.js:81-113 | once the library is there, the same against `EncryptText` |
| Controller.Session.EncryptWithKey | main.js:115-128 | the same for the `try` block, against `EncryptUnder` |
| Controller.Session.EncryptWithReadKey | main.js:117-124 | the same once the key is read, against `EncryptUnderKey` |
| Controller.Session.DecryptCurrentText | main.js:131-191 | the status, the text area and the calls are those of `DecryptText`; the key slots do not change |
| Controller.Session.DecryptWithLibrary | main.js:137-151 | once the library is there, the same against `DecryptText` |
| Controller.Session.DecryptWithSlot | main.js:153-190 | the same for the `try` block, against `DecryptFromSlot` |
| Controller.Session.UnlockAndDecrypt | main.js:157-184 | the same for the unlock step, against `UnlockThenDecrypt` |
| Controller.Session.UnlockThenRead | main.js:162-184 | the same for a non-blank passphrase, against `UnlockWith` |
| Controller.Session.ReadAndDecrypt | main.js:173-184 | the same for the final step, against `FinishDecrypt` |
| Controller.Session.ClickAction | main.js:403-411 | a click decrypts when the text looks like a message and encrypts otherwise, which is always the action the caption named |
| Controller.Session.SyncStoredPassphrase | main.js:297-317 | `localStorage` becomes `SyncedStore` of the controls and the old store |
| Controller.Session.EditPassphrase | main.js:418-422 | typing a passphrase stores the new value and syncs it |
| Controller.Session.SetRemember | main.js:423-427 | toggling the box stores the new state and syncs it |
| Controller.Session.GenerateAndDownloadKeypair | main.js:233-295 | the calls, the downloads and the keypair status are those of `GenerateKeypair` |
| Controller.Session.GenerateAndDownload | main.js:268-294 | the same for the `try` block, against `GenerateFor` |
| Controller.Session.SetKeyGenStatus | main.js:235-246 | the keypair status line is set only when the page has one |

## Left out

- OpenPGP.js itself (key parsing, encryption, decryption, key generation): each call is an opaque function of its arguments whose `None` result is a throw. Each call is assumed to give the same result for the same arguments.
- The asynchronous interleaving: every handler runs to completion before the next event. A second click while an `await` is pending, or the default-key load finishing after an encryption started, is not modelled.
- The DOM plumbing: CSS classes, the default-key preview element, and the copy button's caption (always "Copy text"). The status kind (`ok`, `error` or neither) is modelled as `Report.Kind`.
- Missing page elements other than the passphrase field, the remember box and the keypair status line: the model takes every other element as present, and does not capture what happens without one. Without a file input, the action button, the copy button or the text area, `wireUpEvents` throws at the first `addEventListener` on the missing element and attaches none of the later handlers (main.js:401-417). Without the main status element, `setStatus` throws (main.js:10-12). Without the key-mode select, `encryptCurrentText` throws at main.js:90, after the library and blank-text checks and before any status is set. Without a keypair name, email or passphrase input, `generateAndDownloadKeypair` throws at main.js:257-259.
- `copyCiphertext` and the clipboard (main.js:193-207): no key slot or decision depends on it.
- `downloadTextFile` (main.js:221-231): a download is the record `Download(fileName, content, mimeType)`. A download that throws is not modelled. In the source, a throw there, even after the first download started, ends in "Failed to generate keypair.".
- Handlers.Report.Text: the twenty status texts are the source's strings, but every contract compares reports, not texts, and that no two reports show the same text is not proved. These texts only fill the status line, and no contract depends on them. The picker messages, which are fewer, are proved pairwise different (`Handlers.InfoTextsDistinct`).
- The transient "Encrypting...", "Decrypting..." and "Generating keypair..." statuses: the methods set them, but the outcome functions give only the final status.
- Filename.LowerChar: lower-cases ASCII letters only and leaves every other character alone. JavaScript's `toLowerCase` also maps non-ASCII capitals, some of them to ASCII: the Kelvin sign U+212A becomes "k", and U+0130 becomes "i" and a combining dot. The source keeps those letters where the model collapses them, and the lengths, and so the cut at 64 characters, can differ.
- The file read, the fetch and `localStorage` are parameters: `FileChoice`, `Fetch`, and a `storageWorks` flag. A storage that throws on some operations but not on others is not modelled.
