# A model of the OATH daemon and proofs about it

The daemon keeps the one-time-password credentials of YubiKey and Nitrokey
devices at hand: it talks to the OATH applet of each card over PC/SC, caches
the codes it has computed and shows the credentials on D-Bus. This project
models the parts of it where an error would go unnoticed and proves what they
promise, for every input, every answer a card may give and every order of
events. Each `.dfy` file is one module.

- `Tlv`, `Codes`, `Base32`, `CredentialId`, `Put`, `CredentialList`: the wire
  format. One meaning of a TLV byte string is defined without a cursor, and
  every walker of the source is shown to compute from it. Encoders are undone
  by parsers; where the source's 8-, 32- or 64-bit arithmetic wraps, the exact
  set of inputs on which the result is still right is given.
- `Session`: one APDU exchange with its rate limit, its single retry after a
  card reset and its reassembly of answers sent in pieces, against an
  environment that may do anything. It ends in an end-to-end theorem: a
  CALCULATE ALL answer, cut anywhere, comes out of the parser as the records
  the card sent.
- `Coordinator`: the reconnect coordinator as a state machine whose reconnect
  function can itself run an event loop.
- `CardDiscipline`: any number of threads, other applications and
  `setPassword` interleaved; what every command finds when it reaches the card.
- `Transaction`, `CardHandle`: the scoped PC/SC transaction under moves, and
  the reconnect with growing pauses; nothing opened is lost or closed twice.
- `CodeCache`: the cache of TOTP codes with its background workers, as a state
  machine. Codes are kept as the pair of account and counter, so two codes are
  equal exactly if they are equal for every secret.
- `DeviceMaps`, `DbusObjects`, `Listing`: tables that have to mirror each
  other, and lists drawn from two sources.
- `Fetcher`: the fallback strategies for device information against a card that
  answers each command in any way.
- `Arithmetic`, `Bytes`, `Enumeration`: what the others share.

Objects of the source that change their fields are classes here. Each method
is proved to do what a function of the old state says, and runs are sequences
of such steps; what holds of every run is proved about those. What the card's
side reads or writes is given by the card's own numbers. Signals, the
clock, PC/SC, the database and the D-Bus registration are inputs chosen by the
environment, or logs.

Some properties one would expect are false of the code. In each case the code
is modelled as it is, the exact condition is proved, and often a run that
breaks the property is given:

- `Codes.FormattedRight`: with 10 or more digits the 32-bit modulus has wrapped;
  from 32 digits on it is zero and the source divides by it (`Codes.ModulusVanishes`).
- `CredentialId.SavedIdRoundTrip`: a name that begins with digits and a slash is
  taken for one with a period, if no period was written before it.
- `Put.PutReadsBack`: the length bytes wrap when the payload is longer than 255.
- `Session.BrokenChainHasNoStatusWord`: a chain that breaks off is returned
  without a status word, so the parser takes payload for one and can list part
  of the credentials as if they were all (`Session.BrokenChainCanList`).
- `Coordinator.RequestIsCertainWhenIdle`: a reconnect requested while another is
  running can lose its timer and be answered with the other's outcome
  (`Coordinator.RequestDuringCallIsLost`, `Coordinator.LosingIsReached`).
- `CardDiscipline.EmptiedPasswordSkipsSelect`: `generateCode` looks at the
  password twice without a lock against `setPassword`; if it is emptied in
  between, CALCULATE goes to whatever applet is selected.
- `CardDiscipline.GuardedExactlyIfTimely`: nor does `setPassword` wait for a command
  that has already decided not to authenticate; it then goes out without VALIDATE
  although a password is stored (`CardDiscipline.LatePasswordIsReached`).
- `CardDiscipline.EveryCommandIsDisciplined`: SET CODE with a new password goes out
  after a SELECT of its own, which ends the validation; only the removal of a
  password keeps it.
- `CodeCache.CachedAnswerIsCurrent`: a code stamped after its step is served
  although it is not current (`CodeCache.LateStampIsReached`).
- `CodeCache.SeedingIsRightForThirtySeconds`: a code seeded from CALCULATE ALL can be
  served although it is not current, exactly if its period is not 30 seconds.
- `CodeCache.OneGenerationPerKey`: a device that disconnects while a generation of
  its own is in flight lifts the de-duplication (`CodeCache.TwoGenerationsAreReached`).
- `DeviceMaps.EveryRunKeepsMirror`: forgetting a connected device leaves its reader
  marked as used (`DeviceMaps.ForgottenReaderIgnoresCards`), and so does a card that
  connects where another device still is.
- `DeviceMaps.EveryRunIsTold`: devices lost with the PC/SC service are not reported.
- `Fetcher.EveryCardKeepsOath`: with a NEO reader name and no serial number known
  the OTP applet can stay selected (`Fetcher.NeoCardIsLeftOnOtp`).
- `Fetcher.LastResortNeedsTwoStatusWords`: the last resort strips the status word
  before a parser that looks for it, so that on the answer of a card without
  password and serial number it always fails.
- `CredentialList.ListV1InvertsEncode`: an element without a name is dropped.
- `Listing.OneSourcePerDevice`: whether a connected device without credentials
  falls back to the database depends on its place in the list.

Where code and documentation differ the code is followed: the header of the
Base32 decoder names RFC 3548, the alphabet and padding are those of RFC 4648
section 6; the identifier used for the OTP applet is that of the management
applet; the last entry of the
table of delays in `reconnectCardHandle` is never used.

## Model

| member | source | states |
|---|---|---|
| Tlv.EntriesAreMaximalPrefix | src/daemon/oath/oath_protocol.cpp:526-547 | on every byte string the entries read are exactly the bytes up to the first place where no complete entry fits, and re-encode to them |
| Tlv.EntriesEncode | src/daemon/oath/yk_oath_protocol.cpp:128-154 | walking an encoding gives back the encoded entries, whatever incomplete tail follows |
| Tlv.FindTlvTag | src/daemon/oath/oath_protocol.cpp:526-547 | the cursor loop returns the value of the first entry with the tag, empty if there is none, on every byte string |
| Tlv.FirstValueIsFirst | src/daemon/oath/oath_protocol.cpp:526-547 | first match is the value of an entry with the tag before which no other has it, and there is none exactly if no entry has the tag |
| Tlv.LastValueIsLast | src/daemon/oath/oath_protocol.cpp:363-402 | a field read is the value of an entry with its tag and length after which no such entry comes |
| Tlv.ParseSelectResponse | src/daemon/oath/oath_protocol.cpp:334-418 | rejects short and failed answers and leaves the outputs alone; otherwise every field is that of the last entry carrying it, the device id prefers the serial number, and success means there is an id |
| Tlv.SelectReadsBack | src/daemon/oath/oath_protocol.cpp:334-418 | from whatever a card encodes, SELECT tells its challenge, that a password is needed exactly if there is a challenge, the version if it has three bytes, and an id made of the serial number if it has four, or else of the salt |
| Tlv.DeviceIdsTellApart | src/daemon/oath/oath_protocol.cpp:404-417 | two answers to SELECT give the same device id if and only if they name the same serial number or salt, up to a salt of four zero bytes and a serial number; an id spells hexadecimal digits only, so holds no slash |
| Tlv.HexSpells | src/daemon/oath/oath_protocol.cpp:404-417 | the hexadecimal text of a byte string is twice as long and denotes its number |
| Tlv.ParseTlv | src/daemon/oath/management_protocol.cpp:205-244 | the table holds the entries before the first 90 00, later ones overwriting earlier ones |
| Tlv.UpToStatusIsLongest | src/daemon/oath/management_protocol.cpp:205-244 | those entries are the longest prefix without a 90 00 |
| Tlv.TableIsLastValue | src/daemon/oath/management_protocol.cpp:205-244 | the table answers each tag with the last entry that carries it |
| Codes.FormatCode | src/daemon/oath/oath_protocol.cpp:590-617 | the loops with 32-bit wrap-around compute the padded remainder, or meet a zero modulus |
| Codes.ModulusVanishes | src/daemon/oath/oath_protocol.cpp:603-609 | the wrapped modulus is zero exactly from 32 digits on |
| Codes.FormattedRight | src/daemon/oath/oath_protocol.cpp:590-617 | the text is the code of RFC 4226 section 5.3 if and only if there are 1 to 9 digits, or more and the value is below the wrapped modulus |
| Codes.IsCodeUnique | src/daemon/oath/oath_protocol.cpp:590-617 | there is only one text of a given length for a value |
| Codes.CalculateTotpCounter | src/daemon/oath/oath_protocol.cpp:549-561 | the eight bytes are the big-endian number of the time step |
| Codes.StepLastsUntil | src/daemon/services/credential_service.cpp:462-467 | the time step is numbered by the periods before it, is the same up to validUntil and the next one there, and validUntil lies within one period |
| Base32.AlphabetOrder | src/daemon/oath/oath_protocol.cpp:624-638 | a character is accepted if and only if it is in the alphabet, and its value is its only place there |
| Base32.DecodeBase32 | src/daemon/oath/oath_protocol.cpp:619-652 | although the 64-bit buffer wraps, the result is made of the bits all symbols spell; nothing at all if some character is no symbol |
| Base32.DecodedIsLeadingBits | src/daemon/oath/oath_protocol.cpp:619-652 | n symbols give the floor(5n/8) leading bytes of their bit string |
| Base32.DecodeInvertsEncode | src/daemon/oath/oath_protocol.cpp:619-652 | the RFC 4648 section 6 encoding of any bytes decodes to them, and so does every text that writes its symbols in either letter case with padding anywhere or none |
| Base32.OtherCharacterSpoils | src/daemon/oath/oath_protocol.cpp:619-652 | one character that is no letter, no digit from 2 to 7 and no padding makes the whole text decode to nothing |
| CredentialId.MatchIsFirst | src/daemon/oath/oath_protocol.cpp:671-676 | the parser's match is the one a backtracking engine finds first, and fails only if there is none |
| CredentialId.PartsMakeId | src/daemon/oath/oath_protocol.cpp:654-703 | period prefix, issuer and account joined again are the id, for every id |
| CredentialId.WithWrittenPeriod | src/daemon/oath/oath_protocol.cpp:671-703 | any decimal number and a slash in front of a name are read as its period if the number is a positive 32-bit int, and dropped in favour of 30 otherwise |
| CredentialId.FinalLineFeedIsDropped | src/daemon/oath/oath_protocol.cpp:671-676 | a line feed at the end of an id that holds no other changes nothing in what is parsed |
| CredentialId.AccountHoldsNoLineFeed | src/daemon/oath/oath_protocol.cpp:671-703 | an account cut out of an id holds no line feed |
| CredentialId.SavedIdRoundTrip | src/daemon/services/credential_service.cpp:713-717 | saving and parsing give back period, issuer and account if and only if a prefix was written or the name does not begin with digits and a slash |
| Put.CreatePutCommand | src/daemon/oath/oath_protocol.cpp:139-219 | appends the fields of the PUT command, each length squeezed into a byte; empty for a secret that does not decode |
| Put.PadKey | src/daemon/oath/oath_protocol.cpp:166-169 | short keys are filled with zeros to 14 bytes |
| Put.PutReadsBack | src/daemon/oath/oath_protocol.cpp:139-219 | there is a command exactly if the secret decodes to something; a reader of the PUT grammar that knows tags, types and algorithms by their numbers recovers name cut to 64 bytes, type, algorithm, digits, touch, counter and key if and only if the payload is at most 255 bytes; Lc is the payload length modulo 256 |
| Put.CodesOnTheWire | src/daemon/oath/oath_protocol.cpp:174-179 | in the byte after the key's tag and length HOTP and TOTP are 1 and 2, SHA1, SHA256 and SHA512 are 1, 2 and 3, whatever the payload's length |
| Put.KeyLimit | src/daemon/oath/oath_protocol.cpp:139-219 | keys of up to 177 bytes always fit, longer ones not with every name |
| Put.SecretReachesCard | src/daemon/oath/oath_protocol.cpp:157-184 | the Base32 text of a key of 1 to 177 bytes reaches the card as that key followed by zeros up to 14 bytes |
| CredentialList.AnswerTells | src/daemon/oath/yk_oath_protocol.cpp:206-263 | what is made of a name and whatever entry follows it tells type, touch flag, period, digits, code and validity of the record the card sent, and nothing more for an entry that is no answer, if and only if the digit count can be shown |
| CredentialList.NothingListed | src/daemon/oath/yk_oath_protocol.cpp:178-267 | nothing is listed if and only if no entry is a name |
| CredentialList.ParseListing | src/daemon/oath/yk_oath_protocol.cpp:175-267 | the cursor loop lists what the entries list, a name with the entry after it |
| CredentialList.ParseCalculateAllResponse | src/daemon/oath/yk_oath_protocol.cpp:159-270 | nothing is listed unless the answer ends in 90 00 |
| CredentialList.ParseInvertsEncode | src/daemon/oath/yk_oath_protocol.cpp:159-270 | parsing the encoding of any records, each a name followed by any entry, tells each of them, in order, with type, touch flag, period, code and validity, if and only if every code's digit count can be shown |
| CredentialList.ParseCode | src/daemon/oath/yk_oath_protocol.cpp:107-157 | the code comes from the first entry that holds one |
| CredentialList.CodeReadsBack | src/daemon/oath/nitrokey_secrets_oath_protocol.cpp:67-117 | the code in an answer comes back as its digits, whatever other entries surround it, if and only if its digit count can be shown |
| CredentialList.NoCodeNoText | src/daemon/oath/yk_oath_protocol.cpp:107-157 | an answer without an entry that can hold a code reads as no text |
| CredentialList.ParseCredentialListV1 | src/daemon/oath/nitrokey_secrets_oath_protocol.cpp:163-236 | lists the elements of the entries tagged 72, in order |
| CredentialList.ListV1InvertsEncode | src/daemon/oath/nitrokey_secrets_oath_protocol.cpp:163-236 | parsing the encoding of any list gives it back with touch flags, the type and algorithm byte being the one PUT writes, if and only if every element has a name |
| CredentialList.AnyTypeByte | src/daemon/oath/nitrokey_secrets_oath_protocol.cpp:196-212 | a type byte from 20 to 2F means TOTP and any other HOTP; fewer than three bytes are no element |
| CredentialList.OnlySuccessIsRead | src/daemon/oath/yk_oath_protocol.cpp:159-175 | all three parsers read an answer exactly if it ends in the bytes 90 00, up to there |
| Session.YkOathSession.SendApdu | src/daemon/oath/yk_oath_session.cpp:54-208 | the loops do what the exchange does, for every environment: result, session and everything sent, waited for and slept |
| Session.CommandGoesOutAtMostTwice | src/daemon/oath/yk_oath_session.cpp:100-161 | in every environment the command goes out at most twice, again only after a reset was signalled and the reconnect succeeded, on the handle it brought; all else sent is SEND REMAINING (00 A5 00 00 00), and the rate limit is kept |
| Session.ExchangeRemembers | src/daemon/oath/yk_oath_session.cpp:54-161 | in every environment the session afterwards remembers when its last command was through, which went out at once or exactly when the limit allowed, on success and failure alike; it has the reconnect's handle if there was a retry and its own otherwise; without a card nothing happens |
| Session.CommandsKeepTheirDistance | src/daemon/oath/yk_oath_session.cpp:66-95 | in every conversation of any commands and pauses, in every environment, any two commands sent, retries included, are at least the rate limit apart |
| Session.ResetIsSignalled | src/daemon/oath/yk_oath_session.cpp:100-147 | a reset is signalled and a reconnect awaited if and only if the first transmission reports one |
| Session.UnansweredGivesNothing | src/daemon/oath/yk_oath_session.cpp:54-161 | the caller gets nothing without a card, on a failure, and on a reset unless the reconnect brings a card that receives the retry |
| Session.ChainIsJoined | src/daemon/oath/yk_oath_session.cpp:166-207 | a chain comes back joined in order, whatever ends it; only a last answer adds its status word |
| Session.ExchangeJoins | src/daemon/oath/yk_oath_session.cpp:54-208 | the same for the whole exchange, with or without a reset before the answer |
| Session.CalculateAllSurvivesChaining | src/daemon/oath/yk_oath_session.cpp:301-335 | records encoded, cut anywhere, sent in pieces, perhaps after a reset, reassembled and parsed are exactly those records, if and only if every code's digit count can be shown |
| Session.AnswerSurvivesChaining | src/daemon/oath/yk_oath_session.cpp:54-208 | any answer cut anywhere and sent in pieces, perhaps after a reset, comes back whole with its status word |
| Session.ListV1SurvivesChaining | src/daemon/oath/nitrokey_oath_session.cpp:78-187 | list elements encoded, cut anywhere, reassembled and parsed are exactly those elements, if and only if each has a name |
| Session.CodeSurvivesChaining | src/daemon/oath/nitrokey_oath_session.cpp:31-76 | a code encoded among other entries, cut anywhere, reassembled and parsed comes back, if and only if its digit count can be shown |
| Session.BrokenChainHasNoStatusWord | src/daemon/oath/yk_oath_session.cpp:192-195 | a chain that breaks off gives the bare payloads; something is listed from them if and only if they end in 90 00 themselves and a name is among the entries before |
| Session.BrokenChainCanList | src/daemon/oath/yk_oath_session.cpp:184-195 | a broken chain of one piece from which a credential is listed |
| Coordinator.DeviceReconnectCoordinator.CancelReconnect | src/daemon/infrastructure/device_reconnect_coordinator.cpp:56-65 | no timer and no device are left |
| Coordinator.DeviceReconnectCoordinator.StartReconnect | src/daemon/infrastructure/device_reconnect_coordinator.cpp:27-54 | a running request is cancelled, the new one is current and its timer runs |
| Coordinator.DeviceReconnectCoordinator.ReconnectDeviceAsync | src/daemon/oath/oath_device_manager.cpp:611-629 | the function installed targets the device that is requested |
| Coordinator.DeviceReconnectCoordinator.TimeoutBegins | src/daemon/infrastructure/device_reconnect_coordinator.cpp:77-94 | the function is called for the current reader, or the request fails at once without one |
| Coordinator.DeviceReconnectCoordinator.TimeoutEnds | src/daemon/infrastructure/device_reconnect_coordinator.cpp:96-114 | whatever timer there is goes, and the device current now is told the outcome |
| Coordinator.EveryCallCompletesOnce | src/daemon/infrastructure/device_reconnect_coordinator.cpp:77-114 | in every run each call targets the device then current and is completed exactly once, unless it is still in progress |
| Coordinator.EveryRequestEndsOnce | src/daemon/infrastructure/device_reconnect_coordinator.cpp:27-114 | in every run a request is cancelled, superseded or completed with its own id; until then it is current and can go on |
| Coordinator.CompletionCarriesOwnId | src/daemon/infrastructure/device_reconnect_coordinator.cpp:96-114 | a completion carries the id of the device called if and only if nothing happened during the call or the last thing was a request for the same device |
| Coordinator.RequestLeftAlone | src/daemon/infrastructure/device_reconnect_coordinator.cpp:27-114 | a request made while idle and left alone ends in one call for its device and one completion with its id and outcome |
| Coordinator.CancellationStops | src/daemon/infrastructure/device_reconnect_coordinator.cpp:56-65 | after a cancellation nothing is called, whatever happens, until another request |
| Coordinator.WithoutFunctionItFails | src/daemon/infrastructure/device_reconnect_coordinator.cpp:77-94 | a timeout without a function reports a failure for the current device, and nothing is called until another request |
| Coordinator.RequestIsCertainWhenIdle | src/daemon/infrastructure/device_reconnect_coordinator.cpp:27-114 | a request left alone is certain to be called if and only if no call is in progress when it is made |
| Coordinator.RequestDuringCallIsLost | src/daemon/infrastructure/device_reconnect_coordinator.cpp:98-113 | a request made during a call that returns next loses its timer and is answered with the other device's outcome, and nothing is called afterwards until another request is made |
| Coordinator.LosingIsReached | src/daemon/infrastructure/device_reconnect_coordinator.cpp:27-114 | a run from the start in which the second device is told of success although only the first was called |
| CardDiscipline.StepKeepsInvariant | src/daemon/oath/oath_device.cpp:154-312 | every step of every thread, other application or setPassword keeps what the mutex, the transaction and each place of an operation promise |
| CardDiscipline.EveryCommandIsDisciplined | src/daemon/oath/oath_device.cpp:154-312 | in every run each command goes out in its own thread's transaction; OATH is selected if and only if the password did not vanish between the two looks or OATH had been left selected; if a password was seen, or given to a fetch or for the removal of a password, it follows a VALIDATE since the last SELECT; SET CODE with a new password never does |
| CardDiscipline.EveryValidateWasAskedFor | src/daemon/oath/yk_oath_session.cpp:371-440 | in every run a VALIDATE goes out in our transaction, to the OATH applet, after a SELECT that was answered with a challenge |
| CardDiscipline.StepKeepsGuard | src/daemon/oath/oath_device.cpp:144-345 | with a password stored, every CALCULATE, PUT, DELETE or fetch about to go out finds the card validated, and a step keeps that if and only if it does not store a password while such a command stands ready without |
| CardDiscipline.GuardedExactlyIfTimely | src/daemon/oath/oath_device.cpp:144-485 | the same over whole runs, if and only if no step stores a password at such a moment |
| CardDiscipline.ProtectedCommandsFollowValidate | src/daemon/oath/oath_device.cpp:144-485 | in such runs every one of these commands sent while a password was stored followed a successful VALIDATE since the last SELECT |
| CardDiscipline.LatePasswordIsReached | src/daemon/oath/oath_device.cpp:144-148 | a run from the start in which a password comes too late for a DELETE, on a card that asked for one |
| CardDiscipline.FreeExactlyIfNoneGiven | src/daemon/oath/oath_device.cpp:154-485 | throughout a run no password is stored and no operation authenticates unasked, if and only if none is set and none given to a fetch or an authentication is found right |
| CardDiscipline.EveryOperationGetsThrough | src/daemon/oath/oath_device.cpp:154-485 | any operation that finds the card free and is answered well sends exactly one command (none for a mere authentication), in its own transaction, with OATH selected, validated exactly if a password was asked for or stored and none is being set, stores a password found right and gives everything back |
| CardDiscipline.NoTransactionNoCommand | src/daemon/oath/oath_device.cpp:187-195 | an operation that is refused its transaction sends nothing and leaves everything as it was |
| CardDiscipline.CancellationSelects | src/daemon/oath/oath_device.cpp:398-406 | a cancellation that finds the card free selects OATH without a transaction, which ends any validation, and is gone |
| CardDiscipline.EveryTransactionIsEnded | src/daemon/pcsc/card_transaction.cpp:14-85 | in every run one thread at most is past the mutex, and a transaction is open exactly while it is inside one |
| CardDiscipline.OthersAreLeftAlone | src/daemon/oath/oath_device.cpp:154-485 | while another application holds the card no step takes its transaction, changes the card or sends a command; only that application's steps do |
| CardDiscipline.OneCommandEach | src/daemon/oath/oath_device.cpp:154-485 | a command is logged exactly when it is sent, with the state it finds, and only a fetch can send another after it |
| CardDiscipline.StepKeepsPassword | src/daemon/oath/oath_device.cpp:144-148 | a step leaves some thread without the password it skipped SELECT for if and only if it empties the password between that thread's two looks |
| CardDiscipline.PasswordStaysExactlyIfConsiderate | src/daemon/oath/oath_device.cpp:144-203 | throughout a run no thread loses the password it skipped SELECT for if and only if the password is never emptied between a thread's two looks |
| CardDiscipline.OathIsSelected | src/daemon/oath/oath_device.cpp:154-312 | as long as nobody empties the password between two looks at it every command finds OATH selected |
| CardDiscipline.EmptiedPasswordSkipsSelect | src/daemon/oath/oath_device.cpp:184-203 | emptied between the two looks, CALCULATE goes to whatever was selected before |
| CardDiscipline.EmptyingCanHappen | src/daemon/services/password_service.cpp:50-50 | such a moment is reached, with OATH not selected |
| Transaction.CardTransaction.constructor | src/daemon/pcsc/card_transaction.cpp:14-68 | a transaction is begun unless the handle is 0 or PC/SC refuses; without the applet it stays open but not valid |
| Transaction.CardTransaction.Destroy | src/daemon/pcsc/card_transaction.cpp:70-85 | the transaction, if it is still this object's, is ended |
| Transaction.CardTransaction.Move | src/daemon/pcsc/card_transaction.cpp:88-96 | the transaction changes hands and the source keeps nothing |
| Transaction.CardTransaction.Assign | src/daemon/pcsc/card_transaction.cpp:99-121 | the own transaction is ended first; assigning to itself changes nothing |
| Transaction.EveryTransactionEndsOnce | src/daemon/pcsc/card_transaction.cpp:70-121 | once all objects are gone every transaction begun has been ended exactly once, however it was moved |
| Transaction.ValidObjectsHoldOpenTransactions | src/daemon/pcsc/card_transaction.cpp:14-121 | in every run of constructions, moves and destructions a valid object holds a transaction that is open and that no other valid object holds |
| Transaction.ValidExactlyIfSelected | src/daemon/pcsc/card_transaction.cpp:14-121 | in every run, however often it was moved, an object with an open transaction is valid if and only if the construction that began it skipped SELECT or had a session whose SELECT succeeded, and is on that construction's card handle |
| CardHandle.OathDevice.ReconnectCardHandle | src/daemon/oath/oath_device.cpp:498-565 | stops at the first of six attempts that works; then device and session share the one handle left open; else every handle opened is closed, the device has none, so that every later transaction of it is invalid and none is begun, and the session keeps its closed one; the pauses are those before the attempts made |
| CardHandle.OathDevice.TryOnce | src/daemon/oath/oath_device.cpp:526-558 | a handle whose card does not answer SELECT is given back |
| CardHandle.PausesAreBounded | src/daemon/oath/oath_device.cpp:516-524 | the pauses of a reconnect are 100, 200, 400, 800 and 1600 ms in this order, as many as it needs; together at most 3100 ms, and a failed one exactly so long |
| CodeCache.CredentialService.GenerateCodeAsync | src/daemon/services/credential_service.cpp:385-422 | a request is answered from the cache, joins a pending generation, starts one or fails, in that order of tests |
| CodeCache.CredentialService.FinishGeneration | src/daemon/services/credential_service.cpp:475-486 | the key is no longer pending, a successful code is cached and the account is answered |
| CodeCache.CredentialService.SendReply | src/daemon/services/credential_service.cpp:409-413 | the queued answer carries the code and validity of the entry that was hit |
| CodeCache.CredentialService.SeedCacheFromCredentials | src/daemon/services/credential_service.cpp:60-90 | exactly the listed TOTP codes that need no touch and have not expired are cached, later ones over earlier ones |
| CodeCache.SeededIsLastListed | src/daemon/services/credential_service.cpp:60-90 | after seeding a credential's key holds the last listed code of it that is TOTP, needs no touch and has not expired, with its validity and period |
| CodeCache.SeedingLeavesOthers | src/daemon/services/credential_service.cpp:60-90 | every key without such a code holds what it held before |
| CodeCache.CredentialService.ClearCacheForDevice | src/daemon/services/credential_service.cpp:92-121 | both loops leave exactly the keys without the device's prefix |
| CodeCache.DisconnectTakesItsOwn | src/daemon/services/credential_service.cpp:92-121 | a disconnect takes exactly the device's own codes and pending keys and nothing of any other device |
| CodeCache.DeviceIsConnected | src/daemon/services/credential_service.cpp:422-432 | in every run a device can be asked for a code exactly if it has connected and has not been disconnected, forgotten or lost since |
| CodeCache.KeysAreDistinct | src/daemon/services/credential_service.cpp:55-58 | for device ids without a slash different accounts have different keys, and a prefix finds exactly its device's keys |
| CodeCache.DevicesThatShareKeys | src/daemon/services/credential_service.cpp:55-58 | two device ids can share a key if and only if the prefix of one is a prefix of the other's |
| CodeCache.NoRequestIsLost | src/daemon/services/credential_service.cpp:385-487 | in every run, disconnects included, pending keys are in flight, and every unanswered request has a generation or a posted answer of its own |
| CodeCache.EveryRequestIsInHand | src/daemon/services/credential_service.cpp:385-487 | whatever was done before a request and is done after it, it has been answered since, or a generation or posted answer for its account is on its way |
| CodeCache.NothingIsAnsweredUnasked | src/daemon/services/credential_service.cpp:385-487 | in every run answers given, posted and being generated are together no more than the requests made |
| CodeCache.ErrorsExactlyIfTroubled | src/daemon/services/credential_service.cpp:385-487 | throughout a run every answer carries a code if and only if no worker fails, no request lacks a name, and each is for a connected device, a pending generation or a code the cache can serve |
| CodeCache.FreshCodeIsSent | src/daemon/services/credential_service.cpp:421-487 | a request of a connected device that nothing is pending or cached for is answered, if no time passes, with the code of the moment and the end of its step, and those are cached under its key |
| CodeCache.CachedCodeIsSent | src/daemon/services/credential_service.cpp:397-414 | a cached code with more than half of its period left is what the caller gets, with its validity, and no worker starts |
| CodeCache.CachedAnswerIsCurrent | src/daemon/services/credential_service.cpp:398-419 | in every run an answer from the cache has more than half a period left, is of the account asked for, and is the code of the current step if and only if the moment lies in the step of its counter, which for an entry with the credential's own period means that it was computed for the step in which it was stamped |
| CodeCache.EveryAnswerIsForItsAccount | src/daemon/services/credential_service.cpp:385-487 | in every run a code sent, from the cache or a worker, belongs to the account it is sent for |
| CodeCache.PromptRunsServeCurrentCodes | src/daemon/services/credential_service.cpp:60-90 | if every code is stamped in the step it was computed for, with the credential's period, every answer from the cache is the code of the current step |
| CodeCache.PromptRunsTellTheEnd | src/daemon/services/credential_service.cpp:440-487 | and every code sent, by a worker or from the cache, is sent with the end of its own step |
| CodeCache.LateStampIsServed | src/daemon/services/credential_service.cpp:440-467 | otherwise a code stamped after its step is served to the next request |
| CodeCache.LateStampIsReached | src/daemon/services/credential_service.cpp:385-487 | a run from the start in which that happens, for every credential |
| CodeCache.SeededAnswer | src/daemon/services/credential_service.cpp:60-90 | the run from the start that seeds a code at any moment and the answer a request then gets |
| CodeCache.SeedingIsRightForThirtySeconds | src/daemon/oath/yk_oath_session.cpp:301-306 | a code seeded as soon as it is computed is right at every moment if and only if its period is 30 seconds; with any other it is wrong at thirty times the period |
| CodeCache.DisconnectKeepsOneEach | src/daemon/services/credential_service.cpp:107-115 | a disconnect keeps the pending keys equal to those in flight, each once, if and only if the device has no generation in flight |
| CodeCache.OneGenerationPerKey | src/daemon/services/credential_service.cpp:422-486 | throughout a run the pending keys are exactly those in flight, each once, if and only if no device disconnects while a generation of its own is in flight |
| CodeCache.DisconnectAllowsTwo | src/daemon/services/credential_service.cpp:107-115 | after such a disconnect a second generation for the credential can start beside the first |
| CodeCache.TwoGenerationsAreReached | src/daemon/services/credential_service.cpp:385-487 | a run from the start with two generations of one credential, for every credential |
| DeviceMaps.OathDeviceManager.ConnectToDevice | src/daemon/oath/oath_device_manager.cpp:170-316 | a useless card's handle is closed; a device already connected is disconnected first; then device and reader are entered and reported |
| DeviceMaps.OathDeviceManager.DisconnectDevice | src/daemon/oath/oath_device_manager.cpp:318-353 | device, reader entry and handle go together and are reported; an unknown id changes nothing |
| DeviceMaps.OathDeviceManager.OnReaderListChanged | src/daemon/oath/oath_device_manager.cpp:398-473 | devices on vanished readers are dropped, in some order, then every reader free at that moment is tried |
| DeviceMaps.OathDeviceManager.StrandedDevices | src/daemon/oath/oath_device_manager.cpp:424-437 | the loop collects each device on a vanished reader once |
| DeviceMaps.OathDeviceManager.OnCardInserted | src/daemon/oath/oath_device_manager.cpp:475-491 | a reader marked as used is left alone, any other is queued for a worker |
| DeviceMaps.OathDeviceManager.Work | src/daemon/oath/oath_device_manager.cpp:737-781 | a worker takes a queued reader and tries it, whatever has happened since |
| DeviceMaps.OathDeviceManager.EnumerateAndConnectDevicesAsync | src/daemon/oath/oath_device_manager.cpp:692-735 | every reader found is queued, in order |
| DeviceMaps.OathDeviceManager.OnCardRemoved | src/daemon/oath/oath_device_manager.cpp:493-514 | a device on the reader, if any, is disconnected |
| DeviceMaps.StepMovesDevices | src/daemon/oath/oath_device_manager.cpp:170-609 | after each kind of step every device is where the step's card puts it (for a reader list the last free reader it is found on), nowhere if the step takes it or its reader away, and untouched otherwise |
| DeviceMaps.RemovedCardIsGone | src/daemon/oath/oath_device_manager.cpp:493-514 | while the tables mirror each other, after a removal nothing is on the reader and every device elsewhere is untouched |
| DeviceMaps.QueueIsConserved | src/daemon/oath/oath_device_manager.cpp:475-491 | a reader is queued exactly by a card inserted while no device is on it or by the enumeration, and leaves the queue only for a worker that tries it |
| DeviceMaps.InsertedCardConnects | src/daemon/oath/oath_device_manager.cpp:475-491 | a card inserted in a free reader is connected by the worker that gets to it, its handle is open, and an older connection of the same device is reported as ended first |
| DeviceMaps.OathDeviceManager.HandlePcscServiceLost | src/daemon/oath/oath_device_manager.cpp:783-805 | both tables are emptied and all handles closed, without a report |
| DeviceMaps.OathDeviceManager.RemoveDeviceFromMemory | src/daemon/oath/oath_device_manager.cpp:560-609 | the device goes and is reported forgotten; its reader entry stays |
| DeviceMaps.AttachedKeepsMirror | src/daemon/oath/oath_device_manager.cpp:298-311 | connecting keeps the tables mutual inverses if and only if no other device is on the reader |
| DeviceMaps.ReaderListKeepsMirror | src/daemon/oath/oath_device_manager.cpp:398-473 | after a reader list change the tables are mutual inverses and no device is on a vanished reader, whatever the cards are |
| DeviceMaps.StepKeepsMirror | src/daemon/oath/oath_device_manager.cpp:170-609 | a step keeps the tables mutual inverses if and only if nothing connects on a reader that another device is on and no connected device is forgotten |
| DeviceMaps.EveryRunKeepsMirror | src/daemon/oath/oath_device_manager.cpp:170-609 | throughout a run the tables are mutual inverses if and only if no step before connected on another device's reader or forgot a connected device |
| DeviceMaps.ForgetKeepsMirror | src/daemon/oath/oath_device_manager.cpp:560-586 | forgetting keeps them so if and only if the device was not connected |
| DeviceMaps.ForgottenReaderIgnoresCards | src/daemon/oath/oath_device_manager.cpp:475-485 | a card inserted in a forgotten device's reader is ignored |
| DeviceMaps.EveryRunKeepsHandles | src/daemon/oath/oath_device_manager.cpp:170-353 | in every run the open card handles are exactly those of the connected devices, one each |
| DeviceMaps.StepIsTold | src/daemon/oath/oath_device_manager.cpp:298-353 | a step keeps listeners informed of exactly the connected devices if and only if it does not lose the service with devices connected |
| DeviceMaps.EveryRunIsTold | src/daemon/oath/oath_device_manager.cpp:170-805 | throughout a run listeners know exactly the connected devices if and only if the service was never lost with devices connected |
| DbusObjects.CredentialObjectManager.AddCredential | src/daemon/dbus/credential_object_manager.cpp:37-74 | an id already there is left alone, a failed registration leaves nothing behind, otherwise a new object is entered and reported |
| DbusObjects.CredentialObjectManager.RemoveCredential | src/daemon/dbus/credential_object_manager.cpp:76-99 | the object goes and is reported; an unknown id changes nothing |
| DbusObjects.CredentialObjectManager.UpdateCredentials | src/daemon/dbus/credential_object_manager.cpp:115-150 | objects still listed stay the same objects, the others go, each new id gets an object for its first credential that can be registered, and the reports are exactly the two differences, each id once |
| DbusObjects.CredentialObjectManager.RemoveAll | src/daemon/dbus/credential_object_manager.cpp:133-137 | the loop removes exactly the given ids and reports each once |
| DbusObjects.CredentialObjectManager.AddAll | src/daemon/dbus/credential_object_manager.cpp:139-146 | the loop adds only missing ids, one object each, however often an id is listed |
| DbusObjects.NameForIsFirst | src/daemon/dbus/credential_object_manager.cpp:139-146 | the credential shown under an id is the first listed one that could be registered, and there is none only if all failed |
| DbusObjects.ObjectsMirrorList | src/daemon/dbus/credential_object_manager.cpp:115-150 | after an update every object has the id of a listed name, and the object ids are those of the list if and only if every missing id could be registered |
| DbusObjects.ListenersFollow | src/daemon/dbus/credential_object_manager.cpp:115-150 | a listener that knew the objects before an update knows them after it, from as many signals as there are changes |
| DbusObjects.UpdateIsIdempotent | src/daemon/dbus/credential_object_manager.cpp:115-150 | updating again with the same list changes and reports nothing |
| DbusObjects.NewObjectsAreNew | src/daemon/dbus/credential_object_manager.cpp:37-74 | an object that appears with an update is none of those that were there before |
| DbusObjects.UpdateKeepsOwn | src/daemon/dbus/credential_object_manager.cpp:115-150 | an object always shows a credential whose name encodes to its id |
| DbusObjects.EveryCredentialShown | src/daemon/dbus/credential_object_manager.cpp:37-150 | after an update, from any objects and with any registrations, every listed credential is shown by an object of its own if and only if every missing id could be registered and no listed name shares its id with another listed name or with the name of an object that was there |
| Listing.CredentialService.GetLive | src/daemon/oath/oath_device_manager.cpp:355-396 | credentials of devices that are not updating, in the order of the walk |
| Listing.CredentialService.AppendCached | src/daemon/services/credential_service.cpp:123-144 | the database's credentials are added unless caching is off or the device is connected and the list not empty |
| Listing.CredentialService.GetAll | src/daemon/services/credential_service.cpp:152-160 | live credentials, then one record of the database after the other |
| Listing.CredentialService.GetOne | src/daemon/services/credential_service.cpp:161-176 | a device's own credentials, or else what is remembered of it |
| Listing.OneSourcePerDevice | src/daemon/services/credential_service.cpp:123-160 | in the list of all, a device appears with exactly its own credentials if it gave any, else with exactly the database's if it was away or its turn came before anything was listed, else not at all |
| Listing.LiveComesFirst | src/daemon/services/credential_service.cpp:152-160 | the credentials of connected devices come first, in the order of the walk |
| Listing.UnknownDeviceShowsItsOwn | src/daemon/services/credential_service.cpp:152-160 | a device the database does not know appears with its own credentials only |
| Fetcher.ParseDeviceInfoResponse | src/daemon/oath/management_protocol.cpp:52-106 | serial number, firmware and form factor are those of the last entries with their tags, if these have a fitting length; no entries at all is a failure |
| Fetcher.DeviceInfoReadsBack | src/daemon/oath/management_protocol.cpp:52-106 | from what the management applet encodes, among whatever other entries, come serial number (tag 02, four bytes), the first three bytes of the firmware (tag 05) and the form factor (tag 04, one byte); what is not told is zero, and no entries at all is no answer |
| Fetcher.SerialReadsBack | src/daemon/oath/oath_protocol.cpp:738-770 | an answer of six bytes or more that ends in 90 00 tells the number of its first four bytes, any other none |
| Fetcher.FirmwareReadsBack | src/daemon/oath/extended_device_info_fetcher.cpp:335-362 | the firmware read from a SELECT answer is the version the card encoded, if it has three bytes |
| Fetcher.ExtendedDeviceInfoFetcher.Fetch | src/daemon/oath/extended_device_info_fetcher.cpp:29-362 | for every card the strategies are tried in order until one succeeds, with the early end for a known serial number; commands sent, fields and result are those of the strategies |
| Fetcher.ManagementIsEnough | src/daemon/oath/extended_device_info_fetcher.cpp:89-144 | a management applet that answers is all it takes: its information is reported, with the serial number known before if it has none, after exactly three commands |
| Fetcher.KnownSerialSuffices | src/daemon/oath/extended_device_info_fetcher.cpp:51-71 | if that fails, a serial number known from SELECT, or the one the applet told in vain, is reported with the firmware of that SELECT and no form factor, if OATH can be selected again |
| Fetcher.OtpIsReported | src/daemon/oath/extended_device_info_fetcher.cpp:146-223 | otherwise the serial number the OTP applet tells, or the one known by then if it is zero, with firmware 3.4.0 and form factor 1 for a NEO reader name and the firmware of a SELECT for any other |
| Fetcher.PivIsReported | src/daemon/oath/extended_device_info_fetcher.cpp:225-280 | and after that the one the PIV applet tells, or the last one known by then if it is zero, with the firmware of a SELECT; everything sent before is known too |
| Fetcher.LastResortIsTaken | src/daemon/oath/extended_device_info_fetcher.cpp:282-319 | if none of the three is of use one more SELECT of OATH is sent and decides; no serial number is reported then |
| Fetcher.FetchRestoresOath | src/daemon/oath/extended_device_info_fetcher.cpp:29-223 | whatever the card answers, after a successful fetch the last accepted SELECT was OATH, except exactly if the reader name says NEO, no serial number is known, the management applet is of no help and the OTP applet tells a serial number: then it was OTP |
| Fetcher.EveryCardKeepsOath | src/daemon/oath/extended_device_info_fetcher.cpp:29-223 | every card is left with OATH selected by every successful fetch if and only if the reader name does not say NEO or a serial number is known beforehand |
| Fetcher.NeoCardIsLeftOnOtp | src/daemon/oath/extended_device_info_fetcher.cpp:184-201 | a card that is not |
| Fetcher.KnownSerialIsKept | src/daemon/oath/extended_device_info_fetcher.cpp:35-71 | a serial number known from SELECT is never replaced by zero, only by the one the management applet reports, and OTP and PIV are not asked |
| Fetcher.LastResortNeedsTwoStatusWords | src/daemon/oath/extended_device_info_fetcher.cpp:282-319 | on the answer a card encodes the last resort succeeds if and only if its last entry is a challenge or a serial number that itself ends in 90 00, and then reports the version and no serial number; so never for a card without password and serial number |

## Left out

- Unicode: names are their UTF-8 bytes, Base32 text and device ids are ASCII; the only line terminator before which `$` matches is taken to be a line feed.
- The cryptography (HMAC, PBKDF2, random challenges): a code is its account and counter, and VALIDATE succeeds or fails as the environment likes.
- The other command builders, the answer to SET CODE and the LIST answer of version 0, whose nibbles are read the other way round: they would add short members only.
- HOTP generation: its period of 0 is divided by in the source, so a generation gets that far only for a period above 0.
- SetPassword against a locked card beyond what `CardDiscipline.EveryCommandIsDisciplined` says of SET CODE.
- Card resets in `CardDiscipline`: reconnecting replaces the handle without the mutex; the reset itself is in `Session`, `Coordinator` and `CardHandle`.
- How long a device object lives while a worker still holds it, and the device and reader tables being read without a lock in places: steps of `DeviceMaps` and `CodeCache` are not interrupted.
- The card reader monitor: its reports are steps of `DeviceMaps`, and readers queued by a report are tried by a later step; a card swapped between two looks of the monitor is not reported at all, which is what makes a step that is not orderly in `DeviceMaps.EveryRunKeepsMirror` possible.
- The connect attempt that outlives its two second timeout and the handle it may then leak.
- Answers longer than the 4096 byte buffer, and the order of the main thread's queue: any answer and any order is allowed here.
- The device model derived from firmware, form factor and NFC flags, and the remaining fields of the management answer: not part of this model.
- D-Bus paths: an object is reported by its id, of which its path is made.
- Dialogs, notifications, clipboard, storage, wallet and input: they hold no property that goes beyond reading one body.
