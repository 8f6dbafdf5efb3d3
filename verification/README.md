# Town Crier: the oracle pipeline, modelled and proved

An application contract pays the `TownCrier` contract to fetch data for it. A relay sees the
logged request, has an SGX enclave answer it, and sends the transaction the enclave formed; the
contract checks the answer, takes the fee and calls the application back. This project models the
pipeline from end to end and proves what it promises, whatever the other parties do.

| file | what it holds |
|---|---|
| `ByteStrings.dfy` | bytes, 32-byte words, base-256 numerals |
| `Rlp.dfy` | RLP (Appendix B of the Ethereum Yellow Paper): encoder, strict decoder, unique decodability |
| `Encoding.dfy` | the enclave's byte-pushing loops, proved to compute the numerals and RLP strings |
| `Abi.dfy` | the argument encoder ("Formal Specification of the Encoding" in the Solidity Contract ABI Specification), its offsets and a decoder |
| `Transactions.dfy`, `Answers.dfy` | transactions (section 4.2 of the Yellow Paper) and the enclave's signed call of `deliver` |
| `Escrow.dfy` | one call to the contract as a function on the chain's state, callbacks being arbitrary nested calls |
| `EscrowRuns.dfy`, `EscrowTheorems.dfy` | the invariant every run keeps, and the theorems about reachable states |
| `EscrowLaws.dfy` | what calls, callbacks and sequences of calls do, as laws and whole new states |
| `TownCrierContract.dfy` | the contract as an object updated in place, proved against `Escrow.dfy` |
| `Relay.dfy` | the relay over that object: one request end to end, and catching up |
| `Base64.dfy`, `QueryTransport.dfy` | how an encrypted query gets from the user into the enclave |
| `LogDecoding.dfy`, `Scanner.dfy` | the older block scanner: reading a log by offsets, and its restartable loop |

`Wrappers.dfy` has `Option` and `Result`.

How the contract is modelled. A call is a value of `Escrow.Call`; everything it cannot control
(whether a payment is accepted, what the callback does) is part of that value, so a theorem about
all calls is a theorem about all behaviours of the outside. A callback is a list of calls, whose
callbacks may hold calls again, with a bit that says whether it ends well or is undone. The ledger
field `effects` records every payment in, payment out and callback on the account of a request; a
call or callback that is undone leaves none. `Reachable` covers the states between calls and the
states in the middle of a delivery, while its callback runs.

Every lemma carries `{:induction false}`: no proof rests on automatic induction.

Where the source and its documentation, or its evident intention, disagree:

- `contracts/README.md:21` says that a cancellation by Town Crier refunds the requester. The code
  (lines 162-170) tests whether SGX is the *stored requester* and pays `msg.sender`.
  `EscrowTheorems.SgxRefundGoesElsewhere` shows that this refund never reaches the stored requester.
  `CancelPaysIff` says exactly what a cancel pays and to whom, and `SgxCancelReachable` that it happens.
- `src/Enclave/eth_transaction.cpp:112-116` write r and s as 32-byte strings, which
  `src/Enclave/eth_ecdsa.cpp:343-344` have filled up with leading zeros. They are numbers, which
  section 4.2 and Appendix B of the Yellow Paper write without, so a node dismisses about one answer
  in 128, and every one with the dummy signature of lines 271-274 (`Answers.AnswerRoundTrip`,
  `Answers.LeadingZeroDismissed`).
- `python-relay/relay.py:102-115` skip an id for which any DeliverInfo is logged, but the contract also
  logs deliveries it discards. A request that somebody else "delivers" is never caught up on
  (`Relay.CatchupIff`, `Relay.ForeignDeliveryHides`).
- `src/Enclave/eth_abi.cpp:82-84` pad byte strings in front; the ABI specification pads behind. A
  reader that follows it gets the bytes that were meant exactly if they fill their words or are all
  zeros (`Abi.DecodeEncoded`).
- `win/App/Monitor.cpp:280,285` use the result of `std::string::find` as a truth value. Any message
  that does not *start* with "too low" uses up a nonce, and any message that does not start with
  "invalid sender" ends the process (`Scanner.CatchOutcome`). The model does the same.
- `win/App/Monitor.cpp:121` looks at the retry count only in the outer loop. A block that cannot be
  fetched is tried for ever (`Scanner.NeverGivesUpInside`).
- `src/Enclave/eth_abi.cpp:116,123` never reset the offset sum between dynamic items, so offsets are
  wrong from the third dynamic item on (`Abi.OffsetsRightIff`, `Abi.ThreeDynamicCounterexample`).
- `src/Enclave/eth_transaction.cpp:122-126` leave a payload of 2^32 bytes or more without a list
  header and report nothing; `Transactions.TransactionRoundTrip` has this as its exact condition.

## Model

| member | source | states |
|---|---|---|
| EscrowTheorems.Conservation | contracts/README.md:72-175 | At every moment of every run, re-entrant ones included, the contract's balance is the sum of what it owes to the ids, and equals ether in minus ether out. |
| EscrowTheorems.Accounting | contracts/README.md:115-137 | For each id, what was paid in equals what was paid out plus what is still held. |
| EscrowTheorems.Solvency | contracts/README.md:78-168 | From creation on, every call of every run, nested ones included, throws exactly if it has to pay and the receiver refuses; lack of funds is never the reason. |
| EscrowTheorems.NeverStarves | contracts/README.md:101-175 | The same for runs from any state that satisfies the invariant. |
| EscrowTheorems.CallOutcome | contracts/README.md:72-175 | When a single call throws (both directions), and that a throw leaves no trace. |
| EscrowTheorems.OccursKeeps | contracts/README.md:101-148 | The invariant and the forward movement of requests hold at every moment of a run, in the middle of callbacks too, whether they are undone later or not. |
| EscrowTheorems.Lifecycle | contracts/README.md:85-175 | An id only moves from nothing to live, from live to delivered or cancelled, and from cancelled to delivered; requester, callback and hash stay as stored, and its payments are only added to. |
| EscrowTheorems.OneCallback | contracts/README.md:132-148 | A callback is made at most once, exactly for requests delivered without a cancellation, and those paid their whole fee to SGX. |
| EscrowTheorems.IdsConsecutive | contracts/README.md:84-98 | Accepted requests are logged under 1, 2, 3, ... without gap or repetition, each with the requester, callback and hash that stay stored and with what was really paid. |
| EscrowTheorems.Sentinels | contracts/README.md:44-52 | Every fee field is a flag or a fee between MIN_FEE and MAX_FEE; the first cancel branch's fee test holds exactly for live requests; no fee subtraction wraps. |
| EscrowTheorems.SgxRefundGoesElsewhere | contracts/README.md:162-170 | In every reachable state, a request cancelled through the second branch was refunded in full to someone other than its stored requester. |
| EscrowTheorems.CancelPaysIff | contracts/README.md:150-175 | Both directions: a cancel pays the caller the whole fee exactly for a live request of SGX's that somebody else cancels, all but the cancellation fee exactly for the requester's own live request, SGX's included, and otherwise nothing; the status changes accordingly. |
| EscrowTheorems.SgxRequestCancelled | contracts/README.md:162-170 | Any request that SGX makes is refunded in full to whoever else cancels it first. |
| EscrowTheorems.SgxCancelReachable | contracts/README.md:162-170 | Such a state is reachable: SGX requests with the least fee, account 1 cancels and is paid it. |
| EscrowTheorems.CancelThenDeliver | contracts/README.md:115-161 | Cancel, then anything, then a matching delivery: the request ends delivered, the requester got all but the cancellation fee, SGX got that, no callback was made. |
| EscrowTheorems.DeliverThenCancel | contracts/README.md:132-174 | A matching delivery, then anything, then a cancel: SGX got the whole fee, the callback was made, the cancel is refused and moves nothing. |
| EscrowTheorems.DeliverTwice | python-relay/relay.py:109-118 | What is delivered twice is paid and called back once: the second delivery, whatever it holds, leaves one event and nothing else. |
| EscrowTheorems.RequestAccepted | contracts/README.md:84-98 | An accepted request is stored as it was made under an id that nobody had, and is live with its payment as its whole history. |
| EscrowTheorems.RequestStoredIff | contracts/README.md:72-99 | Storage changes, and the value stays, if and only if the value is between MIN_FEE and MAX_FEE. |
| EscrowTheorems.DeliverDelivers | contracts/README.md:132-148 | A matching delivery of a live request closes it with that history whatever its callback does, and logs the fee and the gas the rest of it buys. |
| EscrowTheorems.DeliveryDelivers | contracts/README.md:101-137 | A matching delivery never throws for a willing SGX account and leaves any stored request delivered, unless its refund went out before. |
| EscrowRuns.RunKeeps | contracts/README.md:72-175 | Every sequence of calls with callbacks of any depth keeps the whole invariant, moves no request backwards and uses at most one id per request. |
| EscrowRuns.ExecKeeps | contracts/README.md:101-148 | One call with everything nested in its callback keeps the invariant. |
| EscrowRuns.SettleKeeps | contracts/README.md:101-141 | The state in which the callback starts already satisfies the invariant: the fee is paid and cleared before the external call. |
| EscrowRuns.CancelOutcome | contracts/README.md:150-175 | The exact situations in which a cancel pays, returns false or throws. |
| EscrowRuns.CancelKeeps | contracts/README.md:150-175 | Cancelling keeps the invariant. |
| EscrowRuns.RequestKeeps | contracts/README.md:72-99 | Requesting keeps the invariant; it throws exactly when a refused request's refund is not accepted. |
| EscrowRuns.FeeChange | contracts/README.md:122-170 | A fee field may change only together with a payment of the difference between what was and what is owed. |
| EscrowLaws.RunConcat | contracts/README.md:142 | A run of one list of calls and then another is the run of the two lists joined: no call is lost and order is kept. |
| EscrowLaws.RunOne | contracts/README.md:142 | A run of one call is that call; a run of none changes nothing. |
| EscrowLaws.RequestsInSequence | contracts/README.md:84-98 | Any number of accepted requests in a row are stored, logged and paid for under consecutive ids in order, each with its own sender, value, callback and hash; requests stored before stay as they were. |
| EscrowLaws.RequestStep | contracts/README.md:84-98 | The whole new state after an accepted request. |
| EscrowLaws.CallbackUndone | contracts/README.md:142-147 | A delivery whose callback fails leaves exactly what the same delivery to an application that does nothing leaves. |
| EscrowLaws.CallbackRuns | contracts/README.md:132-145 | A callback that succeeds runs, all of it, in the state that delivery leaves. |
| EscrowLaws.NoCallback | contracts/README.md:101-130 | A delivery that does not pay out a live request runs no callback. |
| EscrowLaws.FailedCallback | contracts/README.md:132-147 | The whole new state after a matching delivery whose callback fails: one fee field cleared, two effects, one event, and nothing else. |
| EscrowLaws.DeliveryStep | contracts/README.md:132-141 | The whole new state after a matching delivery, but for its callback. |
| EscrowLaws.LateDelivery | contracts/README.md:115-124 | The whole new state after a matching delivery of a cancelled request: SGX gets the cancellation fee, nothing is logged, nobody is called. |
| EscrowLaws.CancelLogged | contracts/README.md:150-175 | Which two events a cancel logs, by case, and that one that throws logs none. |
| TownCrierContract.TownCrier.constructor | contracts/README.md:63-70 | The counter starts at 1, id 0 belongs to the creator, nothing is held; the invariant holds. |
| TownCrierContract.TownCrier.Request | contracts/README.md:72-99 | The method with its in-place updates has the effect of the request step, and its refund failing undoes all of it. |
| TownCrierContract.TownCrier.Deliver | contracts/README.md:101-148 | The method, its callback re-entering the object, has the effect of the delivery step, of which the laws above speak, and keeps the invariant. |
| TownCrierContract.TownCrier.Settle | contracts/README.md:101-141 | The branches of `deliver` up to the callback. |
| TownCrierContract.TownCrier.Cancel | contracts/README.md:150-175 | The method has the effect of the cancel step. |
| TownCrierContract.TownCrier.Execute | contracts/README.md:142 | A callback's calls, or any others, have the effect of the run function, of which the laws above speak, and keep the invariant. |
| Relay.EndToEnd | python-relay/relay.py:71-84 | For every logged request: the bytes formed from its log entry are accepted if and only if the enclave signs without a leading zero byte; then they make the `deliver` call of SGX with that id, the stored hash, the enclave's error and the first 32 bytes of its response (zeros if there is an error). Mined at any later time, that pays out a live request's fee and calls its callback back with that error and response, and settles the request in any case. |
| Relay.OutgoingDecodes | python-relay/relay.py:71-84 | The exact condition under which the answer to a log entry decodes to the delivery for it. |
| Relay.HonestFromCreation | contracts/README.md:101-148 | If only SGX delivers, and only answers to logged requests, then every id in a DeliverInfo log is settled, re-entrant runs included. |
| Relay.HonestRun | contracts/README.md:101-148 | That property is kept by every honest run. |
| Relay.ForeignDelivery | contracts/README.md:103-109 | Anyone else's delivery of a live request is logged and leaves it live. |
| Relay.ForeignDeliveryHides | python-relay/relay.py:102-115 | A request that is accepted, then delivered by anyone but SGX: catching up on the whole log leaves it live, even when every round succeeds, if others leave it alone meanwhile. |
| Relay.CatchupSkips | python-relay/relay.py:102-115 | Catching up leaves the storage of every id with a logged delivery as it was, however the rounds go, if others leave the id alone. |
| Relay.CatchupSettles | python-relay/relay.py:86-118 | Up to the first round that fails, every request in the snapshot without a logged delivery ends settled, cancels in between or not. |
| Relay.CatchupIff | python-relay/relay.py:86-118 | If all rounds succeed: every request in the snapshot ends settled if those that also have a logged delivery were settled before, and, when others leave these alone meanwhile, only if. |
| Relay.CatchupAnswers | python-relay/relay.py:107-118 | Every live request in the snapshot, with no delivery logged and left alone by others, is called back once, with its own round's error and response, if the rounds up to that one succeed. |
| Relay.CatchupIdle | python-relay/relay.py:92-97 | When no stored request is unsettled, catching up sends nothing. |
| Relay.DismissalEnds | python-relay/relay.py:109-122 | The first answer that is dismissed ends catching up: nothing of its round or of later ones is sent. |
| Relay.HonestCatchup | python-relay/relay.py:86-118 | After any run from creation in which SGX alone delivers, and only what was logged, catching up with successful rounds settles every request in the snapshot. |
| Relay.SparedRun | contracts/README.md:72-175 | Calls that do not cancel an id, and in which SGX does not deliver it, leave its storage as it was, nested calls included. |
| Relay.RefusedEntry | python-relay/relay.py:109-118 | Answering the log entry of a refused request, under id 0, changes nothing but the log. |
| Relay.UnrespondedFalls | python-relay/relay.py:92-97 | The number of unsettled ids never rises. |
| Relay.NoneUnresponded | python-relay/relay.py:95-97 | A count of zero means that every id is settled. |
| Relay.TCRelay.HandleRequestEvent | python-relay/relay.py:71-84 | The answer to a log entry decodes, exactly if the enclave signs without a leading zero byte, to the delivery with its id, hash, error and response; it carries the account's nonce and the enclave's signature; an enclave error shows as empty bytes. |
| Relay.TCRelay.SendResponseCheck | python-relay/relay.py:120-124 | Sending makes the decoded call on the contract, or, for bytes a node dismisses, raises and changes nothing. |
| Relay.TCRelay.HandleEntry | python-relay/relay.py:117-118 | One round, other calls being mined in between: it raises exactly if the enclave does not sign or signs with a leading zero byte; nothing moves backwards; and if the payment goes through, the entry's id is settled. |
| Relay.TCRelay.ReadAnswered | python-relay/relay.py:102-105 | Collects exactly the ids of logged deliveries. |
| Relay.TCRelay.AnswerAll | python-relay/relay.py:109-118 | The loop over the object does what the loop function says, ending where an answer is dismissed. |
| Relay.TCRelay.Catchup | python-relay/relay.py:86-118 | Catching up over the object does what the catch-up function says, of which CatchupSettles, CatchupIff and CatchupSkips speak; the unsettled count does not rise. |
| Answers.FormTransaction | src/Enclave/eth_transaction.cpp:140-295 | Exactly when it succeeds. The bytes are at most 245 and the list of a message call's fields, with the nonce, price, gas limit, receiver and selector that were asked for and no ether, signed over the hash of its own unsigned encoding. A node reads them as the call with this id, the hash of type and data, the error and the first 32 bytes of the response (zeros if there is an error) if and only if the signature has no leading zero byte. The buffer-too-small branch is dead. |
| Answers.ReadOnce | src/Enclave/eth_transaction.cpp:277-289 | The bytes that are sent can be read as one transaction only, the one that was formed. |
| Answers.ReadBack | src/Enclave/eth_transaction.cpp:223-279 | Whoever reads them finds the signature, the envelope, and that what was signed is the hash of the rest. |
| Answers.SenderIsSgx | src/Enclave/eth_transaction.cpp:255-269 | If the enclave's signatures recover to SGX's account, every signed answer does, from the bytes that are sent alone. |
| Answers.AnswerRoundTrip | src/Enclave/eth_transaction.cpp:186-281 | Reading a formed transaction as section 4.2 of the Yellow Paper has it, and ABI-decoding its data, gives back every argument of the call if and only if v, r and s have no leading zero byte; otherwise it is dismissed. |
| Answers.LeadingZeroDismissed | src/Enclave/eth_ecdsa.cpp:343-344 | A signature whose first number is below 2^248 makes every answer invalid. |
| Answers.AnswerLength | src/Enclave/eth_transaction.cpp:226-289 | For every nonce, argument and signature: 234 to 243 bytes of payload behind a header with one length byte. |
| Answers.SignedBytesDetermineCall | src/Enclave/eth_transaction.cpp:236-257 | Equal bytes to sign mean equal nonce, id, hash, error and response. |
| Answers.CallDataRoundTrip | src/Enclave/eth_transaction.cpp:186-219 | The call data is 132 bytes: the selector, then words that decode to the arguments. |
| Answers.SignTransaction | src/Enclave/eth_transaction.cpp:255-275 | What is signed is the hash of the transaction's encoding without a signature, once; without signing, the dummy is used; only the three signature fields change. |
| Transactions.Transaction.constructor | src/Enclave/eth_transaction.h:70-84 | Every numeric field is the minimal numeral of its argument. |
| Transactions.Transaction.RlpEncode | src/Enclave/eth_transaction.cpp:88-135 | Appends the RLP of each field in order and puts the list header in front of the buffer, in place. |
| Transactions.AddListHeader | src/Enclave/eth_transaction.cpp:117-134 | The header is the RLP list prefix of what the buffer held, or none from 2^32 bytes on. |
| Transactions.TransactionRoundTrip | src/Enclave/eth_transaction.cpp:88-135 | Decoding consumes the whole output and returns exactly the fields in order, if and only if the payload is shorter than 2^32 bytes. |
| Transactions.FieldOrder | src/Enclave/eth_transaction.cpp:92-116 | Which fields these are, in which order, for calls and creations. |
| Transactions.AcceptedIff | src/Enclave/eth_transaction.cpp:88-135 | A node reads a signed message call back if and only if it has a list header and none of its seven numbers has a leading zero. |
| Transactions.TransactionInjective | src/Enclave/eth_transaction.cpp:88-135 | Two signed message calls with the same bytes are the same transaction. |
| Transactions.SignedExtendsUnsigned | src/Enclave/eth_transaction.cpp:112-116 | Without headers, the signed bytes are the signed-over bytes followed by v, r and s. |
| Encoding.CountBytes | src/Enclave/encoding.h:64-69 | The shifting loop counts the bytes of the number. |
| Encoding.Itob | src/Enclave/encoding.cpp:143-161 | The result is the big-endian numeral of width max(w, byte length). |
| Encoding.ItobMeaning | src/Enclave/encoding.cpp:143-161 | That numeral has the number's value, and no leading zero when no width is asked for. |
| Encoding.AppendAsUint256 | src/Enclave/encoding.cpp:55-80 | What is appended for every length: negative, up to 8, from 9 to 32, and above. |
| Encoding.WideWord | src/Enclave/encoding.cpp:55-80 | From 9 to 32 bytes the word is the number in one case only: at 9, if the undefined shift by 64 gives zero. |
| Encoding.UintWordValue | src/Enclave/encoding.cpp:70-80 | The appended word has the value n mod 256^len. |
| Encoding.UintWordTail | src/Enclave/commons.h:88-97 | Reading the word's last len bytes gives n mod 256^len back. |
| Encoding.RlpString | src/Enclave/encoding.h:71-102 | The iterator form appends the RLP encoding of the string. |
| Encoding.RlpItem | src/Enclave/eth_transaction.cpp:64-86 | The older form appends the same bytes for every input of non-negative length, and throws exactly for a null pointer. |
| Encoding.RlpItemHeader | src/Enclave/eth_transaction.cpp:75-83 | The shift loop over an `int` length writes the RLP prefix; a negative length writes one truncated byte. |
| Encoding.SwapEndian | src/Enclave/commons.h:71-86 | Swapping is reading the bytes in the other order. |
| Encoding.SwapInvolution | src/Enclave/commons.h:71-86 | Swapping twice gives the number back. |
| Encoding.UintBytes | src/Enclave/commons.h:88-97 | Reads the number that ends at an offset, in either byte order. |
| ByteStrings.ByteLengthLeast | src/Enclave/encoding.h:63-69 | The byte length is at most k if and only if the number is below 256^k. |
| ByteStrings.ShrIsDivision | src/Enclave/encoding.cpp:55-61 | Shifting by whole bytes is division by a power of 256. |
| ByteStrings.WrapIsModulo | src/Enclave/eth_abi.cpp:115-125 | A sum kept in 64 bits is the sum modulo 2^64. |
| ByteStrings.ToByteIsModulo | src/Enclave/eth_transaction.cpp:76 | A cast to a byte is the number modulo 256, negative ones included. |
| ByteStrings.ValueOfBigEndian | src/Enclave/encoding.cpp:70-80 | Writing a number in w bytes keeps it modulo 256^w. |
| ByteStrings.MinimalNoLeadingZero | src/Enclave/encoding.h:120-124 | A positive number's field does not start with a zero byte. |
| ByteStrings.NoLeadingZeroIsMinimal | src/Enclave/encoding.h:120-124 | Any numeral without a leading zero is the one the encoder writes for its value. |
| ByteStrings.MinimalInjective | src/Enclave/encoding.h:120-124 | Equal fields mean equal numbers. |
| Rlp.DecodeEncode | src/Enclave/encoding.h:71-102 | Decoding undoes encoding, whatever bytes follow. |
| Rlp.EncodeDecode | src/Enclave/encoding.h:71-102 | The decoder accepts nothing but encodings. |
| Rlp.PrefixFree | src/Enclave/encoding.h:71-102 | No encoding is a proper prefix of another. |
| Rlp.ShortestForm | src/Enclave/encoding.h:81-101 | Of all forms the format allows for a string, the encoder picks a shortest. |
| Rlp.DecodeAllEncodeAll | src/Enclave/encoding.h:71-102 | Concatenated encodings parse back to exactly the list of strings. |
| Rlp.EncodeAllDecodeAll | src/Enclave/encoding.h:71-102 | And nothing else parses. |
| Rlp.DecodeListIff | src/Enclave/eth_transaction.cpp:117-134 | Bytes decode to a list of strings if and only if they are that list's encoding. |
| Abi.Arg.Encode | src/Enclave/eth_abi.cpp:50-86 | Each static kind appends the word the ABI defines for it; a byte string appends its length in four bytes, the padding and then its bytes. |
| Abi.LengthWordIff | src/Enclave/eth_abi.cpp:77-81 | The length word is the length if and only if that is below 2^32. |
| Abi.EncodeArray | src/Enclave/eth_abi.cpp:113-142 | Appends all heads, then all tails, with the accumulated offsets. |
| Abi.DriftClosedForm | src/Enclave/eth_abi.cpp:116-125 | The never-reset accumulator in closed form: each tail length times the number of dynamic items after it. |
| Abi.OffsetRightAt | src/Enclave/eth_abi.cpp:120-125 | One offset is right if and only if at most one dynamic item comes before its item. |
| Abi.OffsetsRightIff | src/Enclave/eth_abi.cpp:119-139 | All offsets are right if and only if there are at most two dynamic items. |
| Abi.ThreeDynamicCounterexample | src/Enclave/eth_abi.cpp:119-132 | Three empty byte strings, and the wrong third offset. |
| Abi.DecodeEncoded | src/Enclave/eth_abi.cpp:113-142 | With at most two dynamic items: reading byte strings where the encoder puts them gives every item back; reading them where the ABI specification puts them does if and only if each fills its words or is all zeros. |
| Abi.DynamicArgRoundTrip | src/Enclave/eth_abi.cpp:77-86 | The same for one dynamic item whose offset is right, with any number of items beside it. |
| Abi.StaticArgRoundTrip | src/Enclave/eth_abi.cpp:50-75 | A static item is read back from its head, with any number of dynamic items beside it. |
| QueryTransport.Encode | src/Enclave/hybrid_cipher.cpp:165-176 | Key, IV, tag and data in this order, in base64, and with its terminator within a buffer of twice the frame's length. |
| QueryTransport.Decode | src/Enclave/hybrid_cipher.cpp:178-201 | The advancing pointer cuts the frame at 65, 97 and 113 bytes; it fails exactly on text that is not base64, and has no defined result exactly for frames shorter than 113 bytes. |
| QueryTransport.FrameParts | src/Enclave/hybrid_cipher.cpp:189-198 | A frame is made of the four parts at their offsets, and of no others. |
| QueryTransport.TransportIff | utils/encrypt/enc.py:43 | A text survives being cut into words, padded, joined and cut at the first NUL if and only if it contains none. |
| QueryTransport.QueryRoundTrip | src/Enclave/hybrid_cipher.cpp:92-96 | Key, IV, tag and data arrive unchanged for every length of data. |
| QueryTransport.DecryptQuery | src/Enclave/hybrid_cipher.cpp:87-113 | Opens the received parts with the key shared with the sender; the exact cases in which it cannot, for any request data. |
| QueryTransport.EncryptedQueryRoundTrip | src/Enclave/hybrid_cipher.cpp:241-345 | With commuting key agreement and correct authenticated encryption, the plaintext comes back. |
| Base64.DecodeIff | src/Enclave/hybrid_cipher.cpp:173-187 | A text decodes (section 4 of RFC 4648) to some bytes if and only if it is their encoding; any other is malformed. |
| Base64.EncodedText | src/Enclave/hybrid_cipher.cpp:172-175 | It contains no NUL and has four letters per three bytes, so it fits the buffer and survives as a C string. |
| LogDecoding.SwapUint64 | win/App/Monitor.cpp:21-27 | Three mask-and-shift steps reverse the eight bytes. |
| LogDecoding.SwapUint32 | win/App/Monitor.cpp:29-35 | Four masked shifts reverse the four bytes. |
| LogDecoding.SwapTwice | win/App/Monitor.cpp:21-35 | Both swaps are their own inverses. |
| LogDecoding.DecodeLog | win/App/Monitor.cpp:212-231 | What the fixed-offset reads give, the byte count kept in 32 bits, and exactly when they run past the log. |
| LogDecoding.LogRoundTrip | win/App/Monitor.cpp:202-231 | An encoded log gives back id and type, and its data if and only if that has fewer than 2^27 words. |
| Scanner.RestartsKeep | win/App/Monitor.cpp:103-296 | Over any number of processes and kills: nothing is rewound and every entry of every scanned block was answered or refused by the enclave; no nonce is sent twice if and only if, after each send that a kill left unrecorded, an exception uses up its nonce before the next send. |
| Scanner.SendRepeatsIff | win/App/Monitor.cpp:255-267 | A send repeats a nonce if and only if the last send is unrecorded and no exception has used up its nonce since. |
| Scanner.ProcessKeeps | win/App/Monitor.cpp:103-296 | A process keeps all this; started with no unrecorded send pending, it leaves one exactly if it is killed between a send and its record. |
| Scanner.EntriesKeep | win/App/Monitor.cpp:194-268 | The loop over a block's entries passes none by, and the nonce in memory never exceeds the greatest recorded. |
| Scanner.KilledSendRepeats | win/App/Monitor.cpp:255-266 | A kill between send and record, then a process that sends: both under nonce 0. |
| Scanner.ExceptionClears | win/App/Monitor.cpp:276-284 | With an exception in between, they send under 0 and 1. |
| Scanner.CatchOutcome | win/App/Monitor.cpp:276-292 | The exact messages for which the catch block goes on, and for which it uses up a nonce. |
| Scanner.ProcessDone | win/App/Monitor.cpp:119-296 | For all sequences of rounds in which new blocks, when there are any, can be fetched, with failures in between or not, and their entries pass: the process exits, with -1, if and only if the node cannot be reached in five rounds in a row. Otherwise it has scanned every block it was told of, once and in order, and sent each accepted answer under the next nonce. |
| Scanner.WaitingDone | win/App/Monitor.cpp:119-154 | In particular, whatever is fetched, while no new block comes. |
| Scanner.GivesUp | win/App/Monitor.cpp:119-146 | While the node cannot be reached, the process exits after five attempts in a row and not before. |
| Scanner.BlocksDone | win/App/Monitor.cpp:156-294 | The inner loop handles the blocks that are fetched, in order and each as a whole, up to the highest; failed fetches in between change nothing. |
| Scanner.FetchControl | win/App/Monitor.cpp:159-292 | For which blocks a process goes on, tries again, or exits, and with which code: the first entry that does not pass decides. |
| Scanner.EntryControl | win/App/Monitor.cpp:239-292 | The same for one entry, and which nonce an exception uses up. |
| Scanner.ExceptionAtStart | win/App/Monitor.cpp:113-284 | An exception before any entry is handled uses up nonce 0, whatever the table holds. |
| Scanner.NeverGivesUpInside | win/App/Monitor.cpp:157-187 | While a block cannot be fetched, the process never exits. |
| Scanner.Monitor.MonitorLoop | win/App/Monitor.cpp:103-296 | A process over the two tables does what the process function says and leaves neither table with a gap. |
| Scanner.Monitor.HandleException | win/App/Monitor.cpp:276-292 | The catch block over the table has that effect. |
| Scanner.Monitor.HandleLogEntry | win/App/Monitor.cpp:196-267 | One entry, with the nonce read from the table first and recorded after a send. |
| Scanner.Monitor.RecordNonce | win/App/Bookkeeping.cpp:50-55 | What any insert does to the table and its maximum; it leaves no gap exactly if the nonce is at most one above that. |
| Scanner.Monitor.RecordScan | win/App/Bookkeeping.cpp:57-62 | The same for blocks. |
| Scanner.Monitor.Init | win/App/Bookkeeping.cpp:127-149 | Opening the database again changes no row: neither maximum is rewound. |
| Scanner.Monitor.GetLastNonce | win/App/Bookkeeping.cpp:64-93 | The greatest nonce in the table. |
| Scanner.Monitor.GetLastScan | win/App/Bookkeeping.cpp:95-125 | The greatest block in the table. |

## Left out

- TLS, sockets, HTTP, gRPC, JSON-RPC, the SGX bridges, logging, hex dumps, configuration and key provisioning: plumbing.
- The scrapers and `do_handle_request`: the enclave's error code and response bytes are parameters; a response without error has at least 32 bytes, as `form_transaction` needs (src/Enclave/eth_transaction.cpp:183).
- keccak: any function to 32-byte words, its error return left out. ECDSA: any function from a hash to a signature or a failure.
- Elliptic-curve key agreement and AES-GCM: functions with the laws of `QueryTransport.Crypto.Lawful`; the group, key and random-number set-up of src/Enclave/hybrid_cipher.cpp is not modelled.
- The base64 library: replaced by the definition in RFC 4648; its tolerance of white space is not modelled.
- Gas: only the arithmetic of `callbackGas`. `DeliverInfo` is logged without the gas left, and the debug events RequestLog and DeliverLog are not logged.
- What the contract relies on its chain for: `tx.gasprice > 0`, a non-zero `msg.sender`, no ether forced in from outside, `.send` not re-entrant because of its gas stipend, fewer than 2^64 - 1 requests in all.
- `throw` and a failed callback restore the state as it was; events and effects logged in between are gone with it.
- `unrespondedCnt`, which the relay reads, is not in this contract: it is modelled as the number of stored ids that are not settled.
- `wait_for_requests` of the relay and its retries: a loop without end over the same two calls. `catchup` is modelled with one snapshot of the log for both filters.
- Null output pointers of `form_transaction`, the copy into the output buffer, and the parsing of the contract address from hex (bytes of the wrong length fail).
- Abi.EncodeArray: flat lists only. Nested `ABI_Generic_Array` values and win/Enclave/ABI.cpp are left out: their length functions do not match what they write. Byte strings are of a size whose encoded length fits an `int`, and `ABI_Address` is given the 20 bytes it reads.
- Undefined behaviour of the source: a shift of 64 bits by 64 gives a byte that is a parameter, and reads past a frame or a log give a result of their own; what a machine does there is not modelled.
- What else a node asks of a transaction: that v, r and s make up a signature of SGX's, that the nonce is next and that gas is paid for.
- Encoding.RlpString: lengths below 2^64; a negative distance between the iterators does not arise.
- LogDecoding.SwapUint64: an integer is modelled as its bytes in memory, which every mask and shift of the source moves whole.
- Scanner.Monitor.MonitorLoop: database calls succeed, block numbers and nonces stay within an `int`, and a process is not killed inside `sqlite3_init`. The benchmark branches, `demo_test_loop` and the Transactions table, which nothing writes, are left out.
- `bytes32(string)`, `replace`, `from_hex`: easy members.
