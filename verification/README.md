# A verified model of the EOS hardware-wallet application

The application signs EOS transactions on a device that cannot hold them. The host sends a transaction as a flat list of
DER octet strings, cut into commands wherever it likes. `src/eos_stream.c` parses the list as it comes in, hashes the
field values, keeps the little it needs for display, stops to let the user review every action, and goes on. At the end
the hash is signed. This project models that parser, the review behind it, the codecs below it, the transaction builder
in front of it and the driver around it, and proves what they promise together.

Main results, each for all inputs and all runs:

- **Refinement.** The parser, with its buffers, its resumable fields and its bulk copies, does exactly what a machine
  does that takes one byte at a time (`StreamParser`, `Runs`). How the input is cut into commands makes no difference.
- **A run is its fields.** At any point of any run, what the user was told is a function of the fields received, the hash
  has been fed their values and nothing else, and the input is the fields with their headers (`History`, `Reports`).
- **Grammar and protocol.** Whatever the input, a signature is reached only over a grammatical transaction, after each
  announced action was put up for review once, with the confirmation first if there is more than one (`Grammar`, `Protocol`).
- **Round trip.** Every well-formed transaction that the builder serializes is reviewed action by action with its own names
  and data, hashed as the builder hashed it, and signed (`Builder`, `FieldByField`, `Acceptance`, `RoundTrip`).
- **The review is faithful and exact.** For all thirteen known actions, argument n of the review shows field n of the
  payload that the data starts with; the reviews of two pieces of data agree if and only if their payloads differ only in
  key types and in producers behind a proxy. Data behind the payload is never shown (`Review`, `Payload`, `Coverage`).
- **So is the display.** The field readers write exactly the label and the text of their field. Payloads whose assets can be
  printed look alike on all screens if and only if they differ, beyond what the review leaves out, only in memos behind a NUL
  and in symbols behind a zero byte (`Screen`, `LookAlike`, `Display`).
- **Any other data** that passes the checks of the parser is paged through without a failed assertion exactly under a
  condition on its length; and every argument stands for bytes of the data and has a text exactly if the data is long enough
  and the precision and amount of its assets pass a test of their bytes (`Paging`). Its review is the same whatever an earlier
  action left in the buffer exactly if its argument count is read inside the data as well (`OwnData`). All three are stated
  for every kind.
- **What is never seen.** Two well-formed transactions tell the user the same if and only if their actions agree in names and
  data. The chain id, the other fields of the head and all authorizations are not shown (`Unseen`).
- **The signature binds the review.** The hash input has no lengths in it; for fields that measure themselves, as those of
  the intended format do, runs that are signed over the same hash input have told the user the same (`Binding`).
- **The driver.** Over any sequence of chunks, approvals and cancels, a signature follows the approval of every question if
  and only if no chunk was taken while a question was open (`SignDriver`, `Cancellation`).
- **Codecs.** Base58 with its size estimate, names, assets, decimal integers, variable-length integers, DER headers and
  DER signatures are proved against reference definitions and shown to be undone by their readers.

Modules build on each other in this order: `Bytes`, `Digits`, `Memory`; the codecs `Varint`, `TlvHeader`, `Names`, `Decimal`,
`Asset`, `Base58`, `DerSignature`; the actions `Actions`, `ArgumentCount`, `Review`, `Screen`, `Payload`, `Coverage`,
`Paging`, `OwnData`, `LookAlike`, `Display`; the machine `Machine`, `Runs`, and the parser class `StreamParser`; whole runs
`History`, `Reports`, `Grammar`, `Protocol`; the builder and the round trip `Builder`, `FieldByField`, `Acceptance`,
`RoundTrip`, `ShortNames`, `Unseen`, `Binding`; and the driver `SignDriver`, `Cancellation`.

Conventions. SHA-256 is kept as the bytes fed to it and a digest is the datatype value `Sha256(input)`, so equal digests
mean equal inputs. A failed `LEDGER_ASSERT` ends a run, as do a stream fault and a finished transaction. Reads past the
512-byte data buffer are not given a meaning: the reader returns `Overread`. Machine integers are the subset types of `Bytes`,
with wrap-around written out (`Wrap32`, `% 0x100`).

## Findings about the code

- The builder packs counts into one byte (`tests/functional/apps/eos_transaction_builder.py`, lines 108, 113, 117, 128, 321),
  which the parser reads back correctly exactly when they are below 128 (`Varint.PackedTableCount` in front of table entries,
  `Varint.PackedByteCount` and `Builder.CountReads` in fields of their own), and it encodes each byte of a variable-length
  integer in UTF-8 (line 88), which is LEB128 exactly below 128 (`Builder.FcUintIsLeb128`). The round trip is proved for what
  the builder writes, where it can hold, and for the intended encoding; `RoundTrip.WrittenAsIntended` says exactly when the
  two are the same.
- A count of zero actions is parsed as one action, which is reviewed and signed (`RoundTrip.NoActionIsOne`), and a count of
  zero authorizations as 2^32 of them: the loops test after their body (`src/eos_stream.c`, lines 634-644, 695-699 and
  775-779; `Grammar.Times`, `Grammar.AuthTimes`).
- The four-byte length form passes the check in `src/eos_utils.c`, line 157, but never decodes in the five-byte header
  buffer (`TlvHeader.FourLengthOctetsNeverFit`).
- The argument count of `voteproducer` wraps at 256: it is right exactly as long as fewer than 255 producers are announced
  (`ArgumentCount.VoteCountWraps`). Two bytes behind the proxy are enough to have the action put up for review without any
  argument (`ArgumentCount.VoteWithoutArguments`). Its label is cut to twelve characters, so the total number of producers
  is never seen (`Screen.ProducerLabelIsCut`), and the labels of producers 10 and 100 are the same
  (`Screen.ProducersLookAlike`, `Screen.TenAndHundred`). A proxy hides the producers behind it.
- `newaccount` shows its keys at fixed offsets, while the validator finds them behind counts of one to five bytes. The keys
  shown are the keys validated exactly when the four counts before them take one byte each
  (`Coverage.ShownKeysAreValidated`). `Coverage.ShiftedKeys` has data with a count of one in two bytes: it is accepted with
  two keys, and both are shown shifted by a byte.
- Key types are never shown, nor is data behind the payload, such as what follows the eight bytes of a refund
  (`Coverage.ReviewIsExact`). A memo longer than 127 bytes is counted as an argument but cannot be shown
  (`Coverage.MemoShown`), and of a shorter one nothing is seen from its first NUL on (`LookAlike.BehindNul`).
- The precision of an asset is not checked before it is printed (`src/eos_types.c`, lines 114-126). The power of ten fits
  int64_t up to a precision of 18 and no further (`Asset.AssetFits`); in 64 bits it is zero, and the remainder by it
  undefined, from a precision of 64 on (`Asset.ScaleVanishes`); and from 61 on the text does not fit its scratch. The least
  amount cannot be negated when it is not divided. `Paging.PreciseTransferHasNoText` is a transfer of 33 bytes with a
  precision of 64: it is put up for review, and all its arguments are read, but its quantity has no text.
- Numbers of 32 bits are printed with `%d`: the bytes of `buyrambytes`, a threshold and a delay are shown as they are exactly
  below 2^31 (`Screen.UInt32Shown`), and as negative numbers above.
- A name field of fewer than eight bytes leaves the rest of the name kept from an earlier action. The names reviewed are those
  of the fields of the action exactly when the bytes left are zero (`ShortNames.NamesAreOwn`), as with eight bytes, which
  leave none. Two actions of the same names, the second with empty name fields, are reviewed and signed like two that write
  them out, over sixteen bytes less (`ShortNames.NamelessIsSigned`).
- Fields are read with lengths computed in 32 bits. Data that ends inside a field fails an assertion when it is paged to,
  after it was put up for review; data that ends before a field shows what an earlier action left in the buffer, and so does
  data that ends before the flag of a stake transfer (`src/eos_stream.c`, lines 86-93).
  `Paging.PagingNeverAborts` and `Paging.PagesReadTheData` say exactly when neither happens. Four inputs:
  a transfer of 20 bytes (`Paging.ShortTransferAborts`), a vote of eight bytes (`Paging.ShortVoteShowsOlderBytes`), a stake
  delegation of 48 bytes that shows the transfer flag of an earlier one (`Paging.ShortDelegateShowsOlderFlag`), and a new
  account of 16 bytes with the keys of an earlier one (`Paging.ShortAccountShowsOlderKeys`).
- Nor are lengths checked before the arguments are counted. The count is that of the data alone exactly if the memo length of
  a transfer, the flag of a delegation, the proxy and the count of a vote, or the authorities of a new account are inside
  the data (`OwnData.CountIsOwnExactly`); otherwise an earlier action decides how many arguments the user is shown.
- The user is never shown the chain id, the expiration, the other fields of the head, or who authorizes an action
  (`Unseen.HeadAndAuthorizationsUnseen`).
- The size field in front of the data of a known action is not compared with the data. Moving a byte of a refund from its
  data into that field gives another transaction that is signed over the same hash input, after another review
  (`Binding.ShiftedSizeCollides`).
- A cancel leaves the parser as it is (`src/main.c`, lines 82-87), and a further chunk is taken whatever the user has decided
  (lines 304-317). A transaction of one action that was reviewed and cancelled is signed when its chunk is sent again as a
  further one (`Cancellation.SignedWithoutApproval`).
- A first chunk with a second parameter other than zero is refused, but only after it has started a new run (`src/main.c`,
  lines 301-311; `SignDriver.Driver.HandleSign`).

## Model

| member | source | states |
|---|---|---|
| Varint.UnpackVariant32 | src/eos_types.c:151-166 | the loop returns the value and length of the specification, reads one to five bytes, at most `length` unless that is zero, and stays below 2^32 |
| Varint.UnpackLeb128 | src/eos_types.c:151-166 | decoding inverts LEB128 for every value below 2^32, whatever bytes follow |
| Varint.UnpackAgrees | src/eos_types.c:151-166 | only the first five bytes matter |
| Varint.PackedByteCount | tests/functional/apps/eos_transaction_builder.py:128-128 | a count packed into one byte of a field of its own, and read from the zeroed size buffer, is read back if and only if it is below 128 |
| Varint.PackedTableCount | tests/functional/apps/eos_transaction_builder.py:106-121 | in front of table entries it is read back as one byte if and only if it is below 128; otherwise it takes bytes of the entries along |
| TlvHeader.TlvTryDecode | src/eos_utils.c:136-183 | validity, completeness and length as the specification of the bytes so far says; the length is written only when it decodes |
| TlvHeader.HeaderDecodesIncrementally | src/eos_stream.c:805-829 | every DER header of a length below 2^24 is incomplete at each proper prefix, decodes to its length at the last byte and fits the buffer |
| TlvHeader.DecodedIsMinimal | src/eos_utils.c:136-183 | no proper prefix of a header that decodes with its last byte decodes: headers delimit themselves |
| TlvHeader.FourLengthOctetsNeverFit | src/eos_stream.c:823-828 | the four-byte length form never decodes inside the header buffer |
| TlvHeader.InvalidStays | src/eos_utils.c:136-183 | a header that is refused stays refused whatever follows |
| Names.NameToString | src/eos_types.c:37-57 | writes the name of the value without trailing dots and nothing else, and returns its length; aborts below 13 bytes |
| Names.EncodeName | tests/functional/apps/eos_transaction_builder.py:17-34 | the shifting loop computes the value of the base-32 name |
| Names.NameTextDeterminesValue | src/eos_types.c:26-57 | encoding inverts display on all 64-bit values: distinct names never look alike |
| Names.NameDisplayedAsTyped | tests/functional/apps/eos_transaction_builder.py:9-34 | a typed name is displayed as typed if and only if it is canonical |
| Decimal.WriteDigits | src/eos_utils.c:100-116 | the decimal digits of the number, most significant first |
| Decimal.Ui64ToA | src/eos_utils.c:100-116 | writes the decimal text of any 64-bit unsigned integer and a terminator |
| Decimal.I64ToA | src/eos_utils.c:81-98 | writes the decimal text of any 64-bit signed integer above the least one |
| Decimal.IntTextReads | src/eos_utils.c:81-98 | reading the text gives the integer back |
| Asset.AssetToString | src/eos_types.c:110-149 | for every 64-bit amount and symbol: writes the text of amount, precision and symbol if and only if the arithmetic stays inside int64_t, and nothing else |
| Asset.AssetFits | src/eos_types.c:114-148 | the power of ten fits int64_t if and only if the precision is at most 18; a text that is printed fits the 64-byte scratch buffer, and none of a precision from 61 up does |
| Asset.ScaleVanishes | src/eos_types.c:114-125 | in 64 bits the power of ten is zero if and only if the precision is at least 64 |
| Asset.AssetTextExact | src/eos_types.c:110-149 | two texts are the same if and only if amounts, precisions and symbols up to their first zero byte are, negative amounts included |
| Asset.AssetTextReads | src/eos_types.c:110-149 | a plain reader of the text recovers amount, precision and symbol |
| Asset.EncodeAssetInverts | tests/functional/apps/eos_transaction_builder.py:51-78 | the builder's own reader inverts the printer if and only if the amount is not negative and has decimals |
| Base58.EstimateSuffices | src/eos_utils.c:41-42 | 138/100 digits a byte suffice: 256^n < 58^(138n/100 + 1), and 256^(n-1) <= 58^(138n/100), for all n |
| Base58.Propagate | src/eos_utils.c:44-56 | one pass multiplies the number by 256 and adds the byte, in spite of stopping early at `high`, and loses no carry |
| Base58.Convert | src/eos_utils.c:44-56 | the digits denote the value of all bytes read |
| Base58.TopDigitFree | src/eos_utils.c:41-56 | the first digit can become nonzero only with the last byte |
| Base58.B58Enc | src/eos_utils.c:29-66 | the text is the reference encoding, written inside the buffer given, or false with the size needed |
| Base58.DecodeInvertsEncode | src/eos_utils.c:29-66 | a base-58 decoder with leading ones inverts the encoding on every byte string |
| Base58.CompressedPublicKeyToWif | src/eos_types.c:180-205 | accepts a key exactly when it has 33 bytes and the text fits with three bytes to spare, and then writes `EOS` and the encoding: an accepted length means that the ignored result of the encoder was true |
| Base58.KeyTextFits | src/eos_types.c:180-205 | the encoding of a key has at most 89 characters, so its text fits the argument buffer |
| Base58.KeyTextInjective | src/eos_types.c:180-205 | the text determines the key |
| DerSignature.EcdsaDerToSig | src/eos_utils.c:193-230 | returns 1 exactly on acceptable input and then writes both integers padded to 32 bytes |
| DerSignature.DerFlattens | src/eos_utils.c:193-230 | for all r and s below 2^256 the DER signature flattens to r and s as 32 big-endian bytes each, whatever its first two bytes are |
| DerSignature.BigEndianValue | src/eos_utils.c:193-230 | the 32 bytes denote the integer |
| ArgumentCount.ProcessTokenTransfer | src/eos_stream.c:71-83 | three arguments, four with a memo |
| ArgumentCount.ProcessEosioVoteProducer | src/eos_stream.c:112-130 | two arguments with a proxy, else one more than producers, in eight bits |
| ArgumentCount.VoteCountWraps | src/eos_stream.c:126-129 | without a proxy the count is one more than the producers announced if and only if these are fewer than 255, and none if and only if they are 255 modulo 256 |
| ArgumentCount.VoteWithoutArguments | src/eos_stream.c:126-129 | eighteen bytes of data that announce 255 producers count as no argument at all |
| ArgumentCount.ProcessEosioUpdateAuth | src/eos_stream.c:132-198 | the walk over three tables counts as the specification does and aborts with it |
| ArgumentCount.ProcessEosioNewAccountAction | src/eos_stream.c:222-288 | the validator accepts with four arguments what the specification accepts, and aborts otherwise |
| ArgumentCount.CountArguments | src/eos_stream.c:725-773 | the dispatch on the action: the count of the specification or an abort |
| Review.ReadField | src/eos_parse.c:38-165 | the bytes that a reader of a fixed-width field prints, or an abort when too few are left |
| Review.ParseStringField | src/eos_parse.c:167-192 | a counted text of at most 127 bytes, else an abort |
| Review.ParseVoteProducer | src/eos_parse_eosio.c:130-166 | the argument selected is that of the specification |
| Review.SeekEntry | src/eos_parse_eosio.c:219-244 | the stepping loop lands on the entry and half of it that belong to the argument |
| Review.ParseTables | src/eos_parse_eosio.c:206-317 | jumping through keys, accounts and delays selects what a sequential reading of the tables puts at that place |
| Review.ParseUpdateAuth | src/eos_parse_eosio.c:168-317 | every argument of counted data is the one of the specification |
| Review.ParseFixed | src/eos_parse_eosio.c:24-128 | the parsers with fixed offsets read the slot of their argument |
| Review.PrintArgument | src/eos_stream.c:290-354 | the dispatch shows the specified argument, for unknown actions the warnings and the checksum |
| Screen.ParseField | src/eos_parse.c:38-215 | the readers of names, keys, numbers, assets and permissions with their printers: the two assertions, the label, and the text of the field with zeros behind it, or none for an asset outside int64_t |
| Screen.ParseStringField | src/eos_parse.c:167-192 | the argument reads as the counted text up to its first NUL; both assertions, the second behind the label |
| Screen.FieldTextFits | src/eos_parse.h:23-26 | every text fits the argument and has no NUL, so that it is seen to its end |
| Screen.FieldTextExact | src/eos_parse.c:38-215 | two fields of one format have the same text if and only if their bytes are the same, for assets up to what is behind a zero byte of the symbol |
| Screen.AssetBytes | src/eos_types.c:110-149 | an asset has a text if and only if its precision byte is at most 18, and not zero under the least amount |
| Screen.UInt32Shown | src/eos_parse.c:101-121 | a 32-bit number is shown as it is if and only if its top bit is clear |
| Screen.LabelFits | src/eos_parse.h:23-26 | every label is shorter than its buffer, with any eight-bit number in it |
| Screen.ProducerLabelIsCut | src/eos_parse_eosio.c:163-165 | the label of a producer is the same for every total |
| Screen.ProducersLookAlike | src/eos_parse_eosio.c:163-165 | two producers have the same label if and only if their numbers are the same or begin with the same two digits |
| Screen.TenAndHundred | src/eos_parse_eosio.c:163-165 | the labels of producers 10 and 100 are the same |
| Coverage.PlainShown | src/eos_parse_eosio.c:47-128 | actions of fixed slots: as many arguments as slots, and argument n is slot n |
| Coverage.TransferShown | src/eos_parse_token.c:21-43 | transfer: count and every argument, the memo included |
| Coverage.MemoShown | src/eos_parse.c:167-192 | a memo is shown if and only if it has at most 127 bytes |
| Coverage.DelegateShown | src/eos_parse_eosio.c:24-45 | delegatebw: count and every argument, the transfer flag included |
| Coverage.VoteShown | src/eos_parse_eosio.c:130-166 | voteproducer: count and every argument |
| Coverage.UpdateAuthCounted | src/eos_stream.c:132-198 | K keys, A accounts and W waits are counted as 4 + 2K + 2A + 2W |
| Coverage.AuthorityShown | src/eos_parse_eosio.c:206-317 | argument 4 + j is field j of the tables read one after the other |
| Coverage.UpdateAuthShown | src/eos_parse_eosio.c:168-317 | updateauth: the count is exact and every argument shows its field, without an abort |
| Coverage.NewAccountAccepted | src/eos_stream.c:222-288 | with minimal counts the validator accepts, whatever the length, exactly the data that starts with two names and two single-key authorities |
| Coverage.ShownKeysAreValidated | src/eos_parse_eosio.c:397-450 | for accepted data of any length the fixed offsets of the display are those of the keys validated if and only if the four counts before them take one byte each |
| Coverage.ShiftedKeys | src/eos_parse_eosio.c:397-450 | 103 bytes with the owner's key count in two bytes are accepted, and both keys are shown one byte too early |
| Coverage.CreateShown | src/eos_parse_eosio.c:397-450 | newaccount with any key types: four arguments, each its own field |
| Coverage.PayloadShown | src/eos_stream.c:290-354 | for every known action whose data starts with a well-formed payload, whatever follows it in the data and in the buffer, the count is the number of fields and argument n shows field n |
| Coverage.FieldsDeterminePayload | src/eos_stream.c:290-354 | the labelled fields determine the whole payload when nothing is hidden |
| Coverage.FieldsAreExact | src/eos_stream.c:290-354 | two payloads have the same fields if and only if they agree up to key types and producers behind a proxy |
| Coverage.ReviewIsExact | src/eos_stream.c:290-354 | the reviews of two data buffers that start with payloads agree, in count and in every argument, if and only if the payloads agree up to key types and producers behind a proxy; nothing behind the payloads matters |
| Coverage.ReviewDeterminesData | src/eos_stream.c:290-354 | two data buffers whose payloads hide nothing and whose reviews agree hold the same payload |
| Paging.PagingNeverAborts | src/eos_parse.c:38-192 | for every kind and all data put up for review: no argument fails an assertion of its reader if and only if the length of the data meets the condition of its kind |
| Paging.PagesReadTheData | src/eos_parse.c:38-192 | every argument is read, and shows bytes of the data or a fixed text that they call for, if and only if the data is long enough for all fields shown and for a transfer flag that is set |
| Paging.PagesShowTheData | src/eos_parse.c:38-215 | every argument does so and has a text if and only if the data is long enough and the precision and amount bytes of its assets pass their test |
| Paging.PreciseTransferHasNoText | src/eos_parse.c:145-165 | 33 bytes of transfer with a precision of 64 are put up for review and read without an abort, but their power of ten is zero in 64 bits |
| Paging.ShortTransferAborts | src/eos_parse_token.c:21-43 | 20 bytes of transfer are put up for review with three arguments, of which the last fails an assertion |
| Paging.ShortVoteShowsOlderBytes | src/eos_parse_eosio.c:130-166 | eight bytes of vote show older bytes of the buffer as the proxy |
| Paging.ShortDelegateShowsOlderFlag | src/eos_stream.c:85-94 | the same 48 bytes of delegatebw are reviewed with a stake transfer or without, as an earlier action left byte 48; only the review without shows nothing but its data |
| Paging.ShortAccountShowsOlderKeys | src/eos_parse_eosio.c:397-450 | two names are accepted as a new account with the keys an earlier action left in the buffer |
| OwnData.CountIsOwnExactly | src/eos_stream.c:71-288 | for every kind: the argument count, or the abort of the count, is the same over any older bytes if and only if the bytes that decide it are inside the data |
| OwnData.ReviewIsOwnExactly | src/eos_stream.c:290-354 | for every kind: all arguments are read from nothing but the data, and the review is the same over any older bytes, if and only if the data is long enough and its count is read inside it |
| LookAlike.TableLabels | src/eos_parse_eosio.c:206-317 | the labels of keys, accounts, delays and their weights tell them and their numbers apart |
| LookAlike.ScreensAreExact | src/eos_stream.c:290-354 | two payloads have the same labels and texts if and only if they agree up to key types, producers behind a proxy, memos behind a NUL and symbols behind a zero byte |
| LookAlike.DisplayIsExact | src/eos_stream.c:290-354 | the same of two data buffers that start with payloads whose assets can be printed, whatever follows the payloads |
| LookAlike.DisplayDeterminesData | src/eos_stream.c:290-354 | two data buffers in which nothing is hidden, no memo has a NUL and no symbol a gap, and whose screens say the same, hold the same payload |
| LookAlike.BehindNul | src/eos_parse.c:167-192 | a memo is displayed like the same memo with anything behind a NUL |
| Display.ShowArgument | src/eos_stream.c:290-354 | after the dispatch the two buffers of the argument read, as C strings, as the label and the text of argument n; an assertion fails exactly when its reader aborts, and an argument that does not exist leaves both as they are |
| Machine.TakeByte | src/eos_stream.c:786-908 | at every loop head a field in progress still lacks bytes, and buffer bounds hold |
| Runs.DispatchAppend | src/eos_stream.c:403-784 | a handler fed twice does what it does when fed once |
| Runs.BulkIsByteByByte | src/eos_stream.c:403-422 | handing over any number of bytes at once is handing them over one by one |
| Runs.DriveIsRepeatedCalls | src/main.c:89-109 | a run is `processTxInternal` called again after each answer of the user |
| Runs.DriveAppend | src/eos_stream.c:958-970 | stopping anywhere for input, inside a header or a field, and going on is not stopping |
| Runs.ChunkIndependence | src/eos_stream.c:958-970 | the events and the final context of a run depend on the concatenation of the chunks only |
| StreamParser.TxContext.InitTxContext | src/eos_stream.c:47-60 | everything cleared, the state at the chain id, the data setting stored |
| StreamParser.TxContext.ReadTxByte | src/eos_stream.c:62-69 | the first pending byte, and the rest stays pending |
| StreamParser.TxContext.AbsorbBytes | src/eos_stream.c:403-415 | what all handlers share: takes as much as is there and needed, hashes exactly that, stores it where the field belongs |
| StreamParser.TxContext.ProcessField | src/eos_stream.c:403-422 | refines the machine's step on the bytes it takes |
| StreamParser.TxContext.ProcessZeroSizeField | src/eos_stream.c:430-461 | the same; a nonzero size ends the run |
| StreamParser.TxContext.ProcessActionListSizeField | src/eos_stream.c:468-503 | the same; the number of actions is decoded, and a confirmation due for more than one |
| StreamParser.TxContext.ProcessActionAccount | src/eos_stream.c:509-539 | the same; the contract is kept and its text shown |
| StreamParser.TxContext.ProcessActionName | src/eos_stream.c:545-574 | the same for the action name |
| StreamParser.TxContext.ProcessAuthorizationListSizeField | src/eos_stream.c:580-612 | the same; the number of authorizations is decoded |
| StreamParser.TxContext.ProcessAuthorizationPermission | src/eos_stream.c:618-647 | the same; back to the actor until the index meets the number |
| StreamParser.TxContext.ProcessUnknownActionDataSize | src/eos_stream.c:649-669 | the same; the size goes into the data hash too |
| StreamParser.TxContext.ProcessUnknownActionData | src/eos_stream.c:674-706 | the same; the data hash is closed and started afresh |
| StreamParser.TxContext.ProcessActionData | src/eos_stream.c:711-784 | the same; data over 511 bytes end the run, else they are buffered and counted |
| StreamParser.TxContext.Switch | src/eos_stream.c:837-906 | the dispatch on the state refines the machine's |
| StreamParser.TxContext.ReadHeader | src/eos_stream.c:802-836 | the header loop, resumed in the middle or not, does what the machine does byte by byte |
| StreamParser.TxContext.ProcessTxInternal | src/eos_stream.c:786-908 | terminates since each round uses up input, returns what the machine returns, and asks for more only when nothing is pending |
| StreamParser.TxContext.ParseTx | src/eos_stream.c:958-970 | takes up a new chunk only when the last one is used up, and then refines the machine on it |
| StreamParser.TxContext.PrintArgument | src/eos_stream.c:290-354 | the argument selected for display, or none, or a failed assertion |
| History.TakeByteConserves | src/eos_stream.c:388-422 | each byte taken is kept as a header, value or pending byte; the hash gets the value bytes only |
| History.BytesAreAccountedFor | src/eos_stream.c:62-69 | bytes supplied are header bytes, undecoded header bytes and hashed bytes |
| History.DispatchFaithful | src/eos_stream.c:403-784 | every handler call keeps hash, size buffer, names, texts, data buffer, data hash and pending review true to the fields received |
| History.TakeByteFaithful | src/eos_stream.c:786-908 | so does every byte |
| Reports.DisplayIsReview | src/eos_stream.c:712-784 | at READY the display is the review of the fields just received: names, kind, count, data or checksum |
| Reports.RunReports | src/eos_stream.c:786-908 | at any point of any run: what was told is what the fields received call for, and they are the input taken |
| Reports.HashConservation | src/eos_stream.c:388-422 | at any point of any run the hash input is the concatenation of the field values, and all other bytes are header bytes |
| Reports.ChecksumIsolation | src/eos_stream.c:649-706 | outside the size and data of an unknown action the data hash is empty |
| Reports.UnknownNeedsConsent | src/eos_stream.c:876-893 | an unknown action is put up for review only when arbitrary data is allowed |
| Grammar.CompleteAdvances | src/eos_stream.c:403-784 | completing a field moves the parser as the grammar's places say; sizes pass only if short, zero sizes only if zero |
| Grammar.AdvanceGrammatical | src/eos_stream.c:633-646 | each completed field keeps the fields received the beginning of a transaction, through both loops |
| Grammar.RunIsGrammatical | src/eos_stream.c:837-906 | at any point of any run the fields received are the beginning of a transaction |
| Protocol.PlaceTells | src/eos_stream.c:786-801 | wherever the parser is, the confirmation and one review for each complete action have been told |
| Protocol.ReviewProtocol | src/eos_stream.c:786-908 | confirmation first and only for several actions, one READY each before the next byte, FINISHED only over a complete transaction with all announced actions reviewed |
| Protocol.NoConfirmLater | src/main.c:89-109 | once the number of actions is known no call returns CONFIRM again |
| Builder.EncodeFcUint | tests/functional/apps/eos_transaction_builder.py:81-93 | the loop writes seven bits a byte, each byte through UTF-8 |
| Builder.FcUintIsLeb128 | tests/functional/apps/eos_transaction_builder.py:81-93 | that is LEB128 if and only if the value is below 128 |
| Builder.CountReads | tests/functional/apps/eos_transaction_builder.py:124-128 | the parser reads back a packed count if and only if it is below 128, and any LEB128 count below 2^32 |
| Builder.TransactionEncoder.Update | tests/functional/apps/eos_transaction_builder.py:290-293 | hash, output and copy each grow by the field |
| Builder.EncodeAction | tests/functional/apps/eos_transaction_builder.py:124-138 | the encoder holds the fields of the action behind what it held |
| Builder.EncodeTransaction | tests/functional/apps/eos_transaction_builder.py:302-331 | the output is the fields of the transaction as DER octet strings, the digest is over their values |
| FieldByField.DriveField | src/eos_stream.c:802-906 | a whole field, header and value, is handed over in one step |
| FieldByField.FieldAccepted | src/eos_stream.c:403-784 | a field that meets the checks of its place is taken, filed, and leads to the next place |
| Acceptance.ActionLeads | src/eos_stream.c:509-784 | all fields of a sendable action are accepted, and the next action or the end comes next |
| Acceptance.TransactionLeads | src/eos_stream.c:786-908 | all fields of a well-formed transaction are accepted, to the end |
| RoundTrip.ActionReviewed | src/eos_stream.c:712-784 | an action is reviewed with its own names, kind and data or checksum, whatever came before it |
| RoundTrip.NamedActionReviewed | src/eos_stream.c:509-574 | an action is reviewed under its names whenever its name fields, short or not, complete the names kept before it to them |
| ShortNames.NamesAreOwn | src/eos_stream.c:509-574 | whatever came before: an action is reviewed under the names of its own fields if and only if the names kept are zero where the fields do not reach |
| ShortNames.NamelessIsSigned | src/eos_stream.c:509-574 | every well-formed transaction of two actions of the same names, with the name fields of the second left empty, gets the reviews of the full one and is signed over sixteen bytes less |
| RoundTrip.RoundTrip | tests/functional/apps/eos_transaction_builder.py:302-331 | every well-formed transaction yields the confirmation for several actions, the review of each action in order, and the signature, over exactly the builder's hash input |
| RoundTrip.NoActionIsOne | src/eos_stream.c:775-779 | a transaction that announces no action is accepted to the end with one, which is reviewed and signed |
| RoundTrip.PayloadReviewed | src/eos_stream.c:290-354 | the review of an action whose data starts with a well-formed payload counts its fields and shows field n as argument n |
| RoundTrip.ShownAsTyped | src/eos_types.c:37-57 | canonical names are displayed as typed |
| RoundTrip.WrittenAsIntended | tests/functional/apps/eos_transaction_builder.py:302-331 | the builder writes the intended format if and only if all its counts and data lengths are below 128 |
| Unseen.RunsTellAlike | src/eos_stream.c:786-908 | the runs over two well-formed transactions have the same events if and only if their actions agree one by one in names and data, or in the bytes digested for an unknown action |
| Unseen.HeadAndAuthorizationsUnseen | src/eos_stream.c:786-908 | transactions that differ in the head and in authorizations only have the same events |
| Unseen.ReviewCountIsOwn | src/eos_stream.c:725-773 | the count under review is that of the data over zeros when it is read inside the data |
| Binding.HashDeterminesReviews | src/eos_stream.c:388-422 | two signed runs with the same hash input over fields that measure themselves have told the user the same, whatever their headers, chunks and settings |
| Binding.TransactionsBind | tests/functional/apps/eos_transaction_builder.py:302-331 | transactions in the intended format that hash alike are reviewed alike |
| Binding.ShiftedSizeCollides | src/eos_stream.c:876-882 | a byte of a refund moved from its data into the size in front of it gives another transaction that is signed, with the same hash input and another review |
| SignDriver.TurnKeeps | src/main.c:317-338 | every call of the parser keeps its context sound, and the arguments of what it puts up for review were counted |
| SignDriver.CallTakes | src/eos_stream.c:786-908 | a call takes the front of its input; the run over what it took is what it reports and what remains to be done |
| SignDriver.Driver.HandleSign | src/main.c:272-338 | refuses a second parameter other than zero, with a new run if the chunk was a first one; else takes a chunk whatever the user has decided, what the parser has left coming first; a signature is over the hash of a finished run, and every question was approved if and only if no chunk was taken over an open one |
| SignDriver.Driver.AnswersNext | src/main.c:317-338 | an answer is the next event of the run over everything the parser was given |
| SignDriver.Driver.UserActionSignFlowOk | src/main.c:89-109 | approval answers with the next event of the run, which is never a confirmation |
| SignDriver.Driver.UserActionTxCancel | src/main.c:82-87 | the question stays open and the parser as it is |
| SignDriver.Driver.ShowArgument | src/eos_stream.c:290-354 | paging shows the argument of the action under review, or ends the application when that fails an assertion |
| SignDriver.ReviewPages | src/eos_stream.c:290-354 | the review on display can be paged through if and only if its data meets the condition of its kind, and every argument stands for its data and has a text if and only if it meets the stricter one |
| SignDriver.FaultStays | src/eos_stream.c:802-836 | a fault comes from an unknown action without consent, or from a header that no further byte makes decode inside its buffer |
| SignDriver.RefusedStays | src/eos_stream.c:884-893 | the data of an unknown action without consent is a fault whatever it is |
| Cancellation.GoOnAfterCancel | src/main.c:304-317 | behind a cancel, a further chunk with the fields left brings the run to a signature without another approval |
| Cancellation.SignedWithoutApproval | src/main.c:82-87 | every well-formed transaction of one action, sent in one chunk, cancelled, and sent again as a further chunk, is signed |

## Left out

- StreamParser.TxContext.ProcessActionAccount: a name field longer than eight bytes ends the run as `NameOverrun`, because in the source its bytes spill into the neighbouring fields of the context, up to the assertion at twelve bytes.
- StreamParser.TxContext.ProcessActionName: the same.
- StreamParser.TxContext.InitTxContext: clears the texts, the argument and its count, which the source keeps in a separate `content` from one run to the next; they are written before the first screen of a run reads them.
- Review.ReadField: the bytes only; the label and the text that are made of them are in `Screen` and `Display`.
- Display.ShowArgument: the hexadecimal text of a checksum is not written out, and the bytes of a field are copied before they are printed.
- Screen.ParseField: `snprintf` is taken to print the decimal text of its `int`, and a 32-bit number above 2^31 to be read as the negative one of the same bits; the bytes of a symbol or a memo are characters as they are, whatever a font makes of them.
- Reports.ChecksumIsolation: says nothing about what a fault or a failed assertion leaves behind.
- Asset.AssetToString: where the arithmetic leaves int64_t nothing is said of what the device does, which the C standard leaves open.
- DerSignature.EcdsaDerToSig: a buffer of at least 72 bytes, the size of the largest signature, behind which the source would read what follows.
- Base58.B58Enc: inputs whose size times 138 fits 32 bits, as the size estimate is computed in 32 bits.
- SignDriver.Driver.HandleSign: starts behind the derivation path of the first chunk, which is not parsed here; the response codes are one `Refuse` with its reason. A failed assertion ends the application. Behind a fault only a first chunk is taken: with a further one the source goes on from what the fault left, where a header fault can have put the position one behind the five-byte header buffer, so that the next byte is written outside it; `SignDriver.FaultStays` says that no byte makes such a header decode before that.
- SignDriver.Driver.SignOnceMore: a further chunk behind a signature is answered with another one over what `cx_hash` leaves in its context after the last block, which is not part of this model.
- A question still on display when a further chunk is taken: it counts as passed over, and its screen is not modelled any further.
- SHA-256 and RIPEMD-160: uninterpreted; the checksum of a key text is a parameter.
- ECDSA signing, `rng_rfc6979`, `check_canonical`, key derivation: foreign cryptography; the signature is represented by the digest it is over.
- `handleApdu`, `app_main`, `handleGetPublicKey`, the configuration and the user interface: transport, storage and screens.
- The DEBUG_APP branch of `parseTx`, which has other buffering rules.
- `array_hexstr`, `is_valid_symbol`, `symbol_length`, `public_key_to_wif`: unused or trivial.
- The readers of `encode_action_parameters` in the builder beyond names, assets and integers: payloads are modelled by their encoded fields.
- The 2^32 authorizations that a count of zero asks for are in the grammar, but not in the round trip, which takes counts from one up.
