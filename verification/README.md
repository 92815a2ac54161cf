# Verified models of the framework's protocol code

This project models, in Dafny, the parts of the framework whose correctness is not plain from reading one
function: the WebSocket implementation, the certificate manager with its renewal timers and its ACME client, and
the loops of the ORM and the router that edit slices in place. `dafny verify dfyconfig.toml` checks all of it.

## What is modelled

**WebSocket (`core/utils/websocket`).** `Frames` gives the base framing of RFC 6455 (sections 5.2 and 5.3) as
functions on byte strings, with the round trips between them. `FrameWriter` and `FrameReader` are the imperative
code: the header is built and parsed byte by byte, the length is accumulated in an `int64`, payloads are unmasked in
the caller's buffer with an offset that survives from one read to the next. `Streams` says what a whole byte stream
means to the receiving end, and `Conn` proves that the connection (its `frameReader` set and cleared across calls)
does exactly that, for any stream, any buffer sizes and any division of the stream by the transport. `Wire` says the
same of the bits on the wire, without the functions that the code and its semantics share. `WriteLock` steps any number of goroutines under the two mutexes of a connection.

**Certificates (`core/utils/acme/autocert`).** `Renewal` is the renewal timer of one domain: the timer and its
callbacks, the mutex, the channel, `start` and the one `stop`. `CertLifecycle` is the map of certificate states
with their locks, the retry timers and the renewal entries, in which what a goroutine does under a lock and its release
of the lock are steps apart. `VerifyOrder` is `verifyRFC` with its shared challenge
index and its deferred calls. `RenewalDelay` is the arithmetic of `next` in 64-bit nanoseconds.

**ACME client (`core/utils/acme`).** `NoncePool` steps any number of requests on the shared nonce pool (section 6.5
of RFC 8555). `Post` is the retry loop with the nested account lookup. `Jws` is the fixed-width encoding of
signatures and coordinates (sections 3.4 and 6.2.1.2 of RFC 7518), and `Bytes` the big-endian numbers under it.

**ORM and router (`core/orm`, `core/kamux`).** `Builder` and `Placeholders` are `Insert`, `Set` and the numbering of
placeholders; `Routes` is registration, which deletes from a slice while ranging over it, and dispatch; `Domain` is
the one-pass domain check. `Strings` has the few library functions these call, `Io` the two ends of a
transport, `Wrappers` the option type.

Code that works on fields is a class whose methods are proved against functions of the old state. The concurrent
protocols are state machines on values, one action for each stretch of code between two points where another
goroutine can come in, and their theorems are about all runs.

## Assumptions

- The transport never returns data together with an error, gives at least one byte when asked for some and any are
  left, and ends either with EOF or with one network error for good. A buffered writer that has failed once lets
  nothing more through. Input is otherwise arbitrary: malformed, wrongly masked and truncated streams included.
- Payloads handed to a writer are shorter than 2^63 bytes, as any Go slice is.
- The request's context is a number of requests that go through before it is done. It bounds the restarts of
  `verifyRFC` that use up no challenge type, and the attempts of `post` under a backoff function that never gives up.
- The server never gives out the same nonce twice.
- Any request, signature, fresh nonce or wait of `post` may fail; a ghost flag of the server remembers whether the last
  of them that was asked for was refused.
- The goroutines that delete challenge tokens and deactivate authorizations are taken as having run.
- `start` is called before `stop`, and `stop` once, because `startRenew` and `stopRenew` do both under `renewalMu`.
- In `Renewal` one step of `renew` covers everything it does between taking and releasing the mutex, except the
  branch that closes the channel and the renewal itself, which are steps of their own.
- `validCert` looks at the first certificate of a chain: whether it is made out to the key (its domain, key type and
  private key taken together) and valid at the time of the check, which may be any time.
- `adaptParams` and the regular expressions are a function from a pattern to a string and a relation between that
  string and a path; two patterns are the same route when the strings are equal.
- R and S of a signature and the coordinates of a key are not negative.

## Where the code does not do what it says

For each of these the theorems named give the exact condition under which the promise does hold.

- `Write` does not refuse an opcode above 15: such a frame reads back as another one (`Frames.RoundTrip`).
- A ping longer than a control frame may be is answered with its first 125 bytes (`Streams.PongEchoes`).
- `Receive` gives `Unmarshal` a shortened payload, without an error, when the input ends with EOF inside the next data
  frame and only then (`Conn.Conn.Receive`, `Streams.FirstMessage`); a concrete input is in `Streams.TruncatedMessage`.
  Only the last message of a stream can be so (`Streams.OnlyLastCutShort`).
- `createCert` reads `state.locked` outside `stateMu`. It is no harm if another caller than the one that made the object
  reads it first. But if two read it as set before either has cleared it, both ask the CA with the same object, and the
  second `Unlock` is fatal: exactly then (`CertLifecycle.TwoRequestsIffCrowd`, `CertLifecycle.FatalIffCrowd`), and it can
  happen (`CertLifecycle.CrowdHappens`). The lifecycle is proved for every run in which it does not, which includes those
  where the reading and clearing of the flag are one step.
- `next` saturates: a certificate that expires more than 292 years ahead, as in the year 9999, is renewed thousands of
  years early (`RenewalDelay.NextOfValidCert`, `RenewalDelay.FarAhead`). `RenewalDelay.NextIsWanted` has the condition
  for all times, those that `validCert` keeps out included.
- `jwsSign` tests the number of bytes, not of bits, for a remainder: right for the three supported curves, not for
  P-224 (`Jws.WidthIsCeiling`). An S too long for its half overwrites the end of R (`Jws.BufferReadsBack`).
- Fields whose names turn into one column name share one value and one set of tags in `Insert` (`Builder.InStepIff`).
- An overriding route does not take the old one's place but goes to the end of the table, so an overlapping pattern
  registered after the old route takes its paths over (`Routes.OverrideTakesOver`, `Routes.OverrideCanLose`), while
  the README calls overriding very safe.

Two bounds are looser than the code suggests, and proved as bounds only. `verifyRFC` restarts after a failed
`WaitOrder` without using up a challenge type, so `VerifyOrder.VerifyRFC` counts failed waits, too. A backoff function
that is never positive comes into play only after a first attempt, so `Post.AttemptsBounded` allows one. The comment
that the default backoff is always positive is not relied on: it is not so for a negative `Retry-After`.

## Model

| member | source | states |
|---|---|---|
| `Frames.RoundTrip` | core/utils/websocket/hybi.go:117-242 | Whatever follows it on the wire, an encoded frame reads back as itself and exactly its bytes are consumed, if and only if its opcode is at most 15 |
| `Frames.RoundTripAll` | core/utils/websocket/hybi.go:117-242 | Any list of frames with four-bit opcodes, masked or not, is read back in order from its concatenated encodings, and reading stops where they end |
| `Frames.HeaderRoundTrip` | core/utils/websocket/hybi.go:117-178 | The parser recovers fin, reserved bits, opcode, length and key, and its header ends where the payload starts |
| `Frames.EncodeAllInjective` | core/utils/websocket/hybi.go:187-242 | Two different lists of frames never have the same encoding, so frame boundaries cannot be misread |
| `Frames.Shortest` | core/utils/websocket/hybi.go:206-217 | No byte string that reads as a frame is shorter than what the writer emits for it: the length form is minimal |
| `Frames.LengthInRange` | core/utils/websocket/hybi.go:144-162 | On every input the parsed length lies in [0, 2^63) and the opcode in four bits |
| `Frames.MaskTwice` | core/utils/websocket/hybi.go:84-89 | Masking twice with the same key and offset gives back the data |
| `Frames.MaskSplit` | core/utils/websocket/hybi.go:82-91 | Unmasking a payload in pieces, with the offset carried over, is unmasking it at once |
| `FrameWriter.FlagByte` | core/utils/websocket/hybi.go:190-199 | The loop over the reserved bits sets the bits of the first byte that section 5.2 of RFC 6455 gives them |
| `FrameWriter.LengthBytes` | core/utils/websocket/hybi.go:219-223 | The shifts produce the big-endian bytes of the length, most significant first |
| `FrameWriter.LengthHeader` | core/utils/websocket/hybi.go:200-223 | The 7-, 16- or 64-bit form is chosen, and flagged in the second byte, by the length alone |
| `FrameWriter.MaskedCopy` | core/utils/websocket/hybi.go:230-233 | Byte i of the fresh buffer is byte i of the message xored with byte i % 4 of the key, and the message is itself untouched |
| `FrameWriter.WriteFrame` | core/utils/websocket/hybi.go:187-242 | A key of the wrong size writes nothing; otherwise the wire grows by the whole encoding, or by a prefix of it if the sink breaks, and by nothing if it was broken |
| `FrameWriter.Writers.SendFrame` | core/utils/websocket/hybi.go:251-260 | One final frame of the given type goes out, with a four-byte key exactly on the side that must mask |
| `FrameReader.ReadLength` | core/utils/websocket/hybi.go:143-162 | The length is the value of the length field in each of its three forms, and a short input gives the transport's error |
| `FrameReader.ReadExtended` | core/utils/websocket/hybi.go:152-162 | The byte-by-byte accumulation in an int64 never overflows and gives the big-endian value, with the top bit of the 64-bit form cleared |
| `FrameReader.ReadHeader` | core/utils/websocket/hybi.go:117-173 | Reading byte by byte gives what the header means as a whole, consumes just the header, and on a short input gives the transport's error |
| `FrameReader.NewFrameReader` | core/utils/websocket/hybi.go:117-178 | The new reader stands at the first payload byte with mask offset 0 and may read as many bytes as the header says |
| `FrameReader.Reader.LimitedRead` | core/utils/websocket/hybi.go:174 | At most the frame's bytes come through, then EOF; bytes of the next frame are never touched |
| `FrameReader.Reader.UnmaskInPlace` | core/utils/websocket/hybi.go:84-89 | Each byte read, and no other, is xored in place with the key byte of its offset in the payload, which goes on from where the last read stopped |
| `FrameReader.Reader.Read` | core/utils/websocket/hybi.go:82-91 | Whatever the sizes of reads, what is read followed by what remains is the unmasked payload that remained before |
| `Streams.MeaningOfFrames` | core/utils/websocket/hybi.go:267-306 | For frames masked as the side demands, the stream delivers exactly the data payloads up to the first close and provokes one pong for each ping, in order |
| `Streams.MessagesOfFrames` | core/utils/websocket/websocket.go:330-371 | The messages of such a stream are its data frames in order, each entire, a continuation having the type of the data frame before it |
| `Streams.KindByPosition` | core/utils/websocket/hybi.go:285-306 | A data frame's message stands at the place of the frame among the data frames, with its payload; its type is the frame's own, or for a continuation that of the latest text or binary frame before it, whatever control frames lie between |
| `Streams.PongEchoes` | core/utils/websocket/hybi.go:291-303 | A ping is answered with its own payload, and the cursor left at the next frame, if and only if the payload is at most 125 bytes |
| `Streams.FirstMessage` | core/utils/websocket/websocket.go:340-366 | On every input, the next message is that of the first data frame behind the control frames, and its payload is shorter than announced if and only if the input stops inside that frame |
| `Streams.OnlyLastCutShort` | core/utils/websocket/websocket.go:330-371 | Over every stream, malformed or not, each message but the last is entire, and none is longer than announced |
| `Streams.TruncatedMessage` | core/utils/websocket/websocket.go:365-370 | A concrete input of which Receive hands on two of five announced bytes |
| `Conn.Conn.Write` | core/utils/websocket/websocket.go:222-232 | One final frame of the connection's type with the given payload goes out whole or the sink is broken; the reading side does not change |
| `Conn.Conn.Send` | core/utils/websocket/websocket.go:308-322 | The marshalled value goes out as one frame of its type; the reading side does not change |
| `Conn.Conn.WritePong` | core/utils/websocket/hybi.go:322-332 | One pong with the given payload, masked as the side must, unless the sink breaks |
| `Conn.Conn.WriteProtocolErrorClose` | core/utils/websocket/hybi.go:308-320 | One close frame with the two-byte status of a protocol error |
| `Conn.Conn.HandleControl` | core/utils/websocket/hybi.go:291-303 | A ping gets one pong with at most 125 bytes, a pong none; the frame is read to its end, and only a network error stops it |
| `Conn.Conn.HandleFrame` | core/utils/websocket/hybi.go:267-306 | The handler's verdict on a frame is that of the stream semantics: wrong masking closes, close ends, control frames are skipped and answered, data is opened with the right type |
| `Conn.Conn.NextFrame` | core/utils/websocket/websocket.go:196-208 | Parsing and handling one frame moves the cursor and the continuation type as the stream semantics says, for every input |
| `Conn.Conn.Read` | core/utils/websocket/websocket.go:192-218 | The bytes returned are the next of the stream's data, never none without an error into a non-empty buffer; an error comes with no bytes and only when the data before it has been delivered |
| `Conn.Conn.DrainOpen` | core/utils/websocket/websocket.go:333-339 | What an earlier call left of a frame is discarded, and no message that has still to be dealt with is lost |
| `Conn.Conn.TakeOpened` | core/utils/websocket/websocket.go:352-370 | An opened frame over the limit stays open and unread with ErrFrameTooLarge; any other goes entire to Unmarshal |
| `Conn.Conn.Receive` | core/utils/websocket/websocket.go:330-371 | A call deals with exactly the first message not yet dealt with, by giving it to Unmarshal or by refusing its size, and otherwise fails for a stated reason; unless a pong cannot be written, what it gives is shorter than announced if and only if the input stops inside the next data frame, ends with EOF, and the frame is within the limit |
| `Conn.ReadToError` | core/utils/websocket/websocket.go:192-218 | Reading to the first error, into buffers of any positive sizes, yields all the stream's data, the error the stream ends with, and all its replies sent |
| `Conn.ReadFrames` | core/utils/websocket/websocket.go:192-218 | On a new connection over whole frames, the bytes read are the data payloads concatenated and the frames sent are the pongs, for any interleaving of control and empty frames |
| `Conn.ReceiveRun` | core/utils/websocket/websocket.go:330-371 | Over any run of Receive calls on any stream, the k-th call deals with the k-th message and no other |
| `Conn.ReceiveFrames` | core/utils/websocket/websocket.go:330-371 | On a new connection over whole frames, n calls deal with the first n data frames one for one, oversized ones included |
| `Wire.HeaderOf` | core/utils/websocket/hybi.go:117-178 | By arithmetic on the bytes alone: a header is found if and only if all its bytes are there, and fin, reserved bits, opcode, length, key and the start of the payload are read off the places that section 5.2 of RFC 6455 gives them |
| `Wire.FirstBytes` | core/utils/websocket/hybi.go:82-91 | For every input that starts with a data frame masked as the side demands, the data delivered begins with the payload bytes present, byte i being the wire byte at its place xored with key byte i % 4, and they are the first message |
| `Wire.ReadOnce` | core/utils/websocket/websocket.go:192-218 | A single Read of any size gives those bytes: byte i is the wire byte xored with the wire byte four places before the payload, plus i % 4; it gives at least one if the frame has any |
| `Wire.ReadBytes` | core/utils/websocket/websocket.go:192-218 | Reading to the first error gives all the payload bytes of that frame that the input holds |
| `Wire.ReceiveBytes` | core/utils/websocket/websocket.go:330-371 | The first Receive gives just those bytes with the opcode on the wire as their type, refuses the frame if and only if it announces more than the limit, which is 33554432 where none is set, and otherwise fails only for a network error inside the payload |
| `Wire.ControlFrame` | core/utils/websocket/hybi.go:267-306 | By the bytes of the frame: wrong masking is answered by a close, opcode 8 ends the reading, opcode 9 brings a pong with the first 125 unmasked bytes, opcode 10 is passed over, and the next frame is looked for right behind the payload |
| `Wire.EncodedLayout` | core/utils/websocket/hybi.go:187-242 | The encoding is that layout bit by bit, in the shortest of the length forms, and each payload byte is that of the message xored with key byte i % 4 |
| `Wire.Put` | core/utils/websocket/hybi.go:187-242 | What hybiFrameWriter.Write adds to the wire is that layout, or it fails |
| `Wire.ReplyBytes` | core/utils/websocket/hybi.go:308-332 | A pong is opcode 10 with its payload, the close after a protocol error opcode 8 with the bytes 03 ea, final and masked on the client only |
| `WriteLock.KeepsLocks` | core/utils/websocket/websocket.go:222-232 | Exactly the holder of a mutex is in the code it guards, and the holder of wio never waits for rio |
| `WriteLock.KeepsWire` | core/utils/websocket/hybi.go:308-332 | After any step the wire is whole frames and at most one partial frame, the lock holder's or one torn by a failed write |
| `WriteLock.KeepsOrder` | core/utils/websocket/websocket.go:308-322 | What each goroutine has sent followed by what it has still to send stays what it was given |
| `WriteLock.RunKeeps` | core/utils/websocket/websocket.go:192-232 | All three hold after every run of any number of goroutines |
| `WriteLock.WireReadsBack` | core/utils/websocket/websocket.go:222-232 | After every run the parser recovers from the wire exactly the frames sent, with at most part of one frame left over |
| `WriteLock.NoDeadlock` | core/utils/websocket/websocket.go:192-232 | Unless every goroutine is done, some goroutine can take a step |
| `WriteLock.RunsAreBounded` | core/utils/websocket/websocket.go:192-232 | No schedule goes on for ever, whatever writes fail: every step lowers a rank, so there are at most as many steps as work and one failure |
| `WriteLock.AllDelivered` | core/utils/websocket/websocket.go:308-322 | Where such a schedule comes to rest, every goroutine's frames are on the wire, whole and in its order, and nothing else is |
| `Renewal.KeepsOneLive` | core/utils/acme/autocert/renewal.go:33-40 | The field timer names the one timer that is pending or whose callback waits or runs, and is nil when there is none |
| `Renewal.KeepsMutex` | core/utils/acme/autocert/renewal.go:44-70 | timerMu has the holder it should have after each step of start, stop and the callbacks |
| `Renewal.KeepsProtocol` | core/utils/acme/autocert/renewal.go:55-75 | stop waits on the channel only for a callback that has fired and will close it, and wakes to a nil timer |
| `Renewal.RunKeeps` | core/utils/acme/autocert/renewal.go:33-87 | The three hold after every interleaving |
| `Renewal.AtMostOneCallback` | core/utils/acme/autocert/renewal.go:33-87 | In every interleaving at most one callback is armed, waiting or running |
| `Renewal.AlwaysOneLive` | core/utils/acme/autocert/renewal.go:33-87 | In every run in which start has been called and stop has not, exactly one timer is pending or has its callback waiting or running, and the field names it |
| `Renewal.LeavesNextTimer` | core/utils/acme/autocert/renewal.go:66-87 | When a callback that found no timerClose returns, it leaves a new pending timer that the field names, and the mutex free |
| `Renewal.RenewsAgain` | core/utils/acme/autocert/renewal.go:66-87 | From any state between start and stop at most four steps, all of the live timer and its callback, lead to the next call of do: renewal never ceases by itself |
| `Renewal.StopIsFinal` | core/utils/acme/autocert/renewal.go:44-64 | Once stop has returned, after at most two passes of its loop, no callback is left and no step is enabled ever again |
| `Renewal.StopGetsCloser` | core/utils/acme/autocert/renewal.go:44-64 | From the time stop has the mutex, every step of any goroutine lowers a bound on the steps until it returns |
| `Renewal.StopNeverStuck` | core/utils/acme/autocert/renewal.go:57-61 | Until stop has returned some step is possible: it is never left waiting on the channel for nothing |
| `Renewal.ClosesOnlyForStop` | core/utils/acme/autocert/renewal.go:71-75 | Whenever a callback closes the channel, stop is waiting on it and it has not been closed before |
| `CertLifecycle.StepKeeps` | core/utils/acme/autocert/autocert.go:568-651 | Map, flags, locks, chains, retry timers and renewal entries fit together after every step that makes no crowd, that is, with no two goroutines past the flag of one object |
| `CertLifecycle.RunKeeps` | core/utils/acme/autocert/autocert.go:440-651 | And so after every run of any number of goroutines without a crowd |
| `CertLifecycle.ObjChange` | core/utils/acme/autocert/autocert.go:586 | A certificate state keeps its key and never gets the flag locked back once it is cleared |
| `CertLifecycle.PhaseChanges` | core/utils/acme/autocert/autocert.go:588-614 | A key goes from absent to issuing to ready or failed, or from absent to ready by the cache; failed ends only by the retry timer; ready never ends |
| `CertLifecycle.ReadyHasChain` | core/utils/acme/autocert/autocert.go:610-611 | A key whose issuance has succeeded has a chain that is not empty and made out to that key, with its first certificate as the leaf |
| `CertLifecycle.ChainKept` | core/utils/acme/autocert/autocert.go:440-651 | The chain kept for a ready key is, certificate for certificate, the one that issuing, the cache or a renewal has just brought for that key, or else the one kept before |
| `CertLifecycle.RequestOnlyWhileIssuing` | core/utils/acme/autocert/autocert.go:585-588 | createCert asks the CA only for a key being issued, with the object in the map, locked, and asked with for the first time; so not for a failed key |
| `CertLifecycle.AtMostOneRequest` | core/utils/acme/autocert/autocert.go:576-588 | Over every run without a crowd no object serves for two requests to the CA, and no lock is released that nobody holds |
| `CertLifecycle.WaitersSeeTheEnd` | core/utils/acme/autocert/autocert.go:576-580 | A caller that waited for the read lock finds the issuance over, with a certificate exactly if it succeeded |
| `CertLifecycle.NoDeadlock` | core/utils/acme/autocert/autocert.go:568-617 | In every run, crowded or not, as long as the program is alive and a goroutine is inside cert or createCert, one of them can go on: who waits to read waits for one that is going to unlock |
| `CertLifecycle.ReadyForGood` | core/utils/acme/autocert/autocert.go:595-607 | Over every run without a crowd a ready key stays ready, no late retry timer deletes it, and a renewal entry exists only for a ready key, also while the object is still locked |
| `CertLifecycle.ReadyIsRenewed` | core/utils/acme/autocert/autocert.go:595-617 | Over every run without a crowd in which stopRenew is not called for a key: if the key is ready, it has a renewal entry or the goroutine that makes one is on its way |
| `CertLifecycle.TwoRequestsIffCrowd` | core/utils/acme/autocert/autocert.go:576-588 | For every run: two goroutines have read the flag of one object as set if and only if the goroutines past it, left to go on, ask the CA twice with one object |
| `CertLifecycle.FatalIffCrowd` | core/utils/acme/autocert/autocert.go:576-585 | And if and only if they can end by unlocking a mutex that is not locked, which ends the program |
| `CertLifecycle.CrowdHappens` | core/utils/acme/autocert/autocert.go:570-576 | From an idle manager two callers for one key come to read the same flag as set |
| `RenewalDelay.RenewBefore` | core/utils/acme/autocert/autocert.go:1030-1035 | The margin is the one configured if that exceeds the jitter, and 30 days otherwise; so it always exceeds the jitter |
| `RenewalDelay.Next` | core/utils/acme/autocert/renewal.go:145-154 | The delay is never negative, in int64 arithmetic with its saturation and wrap-around |
| `RenewalDelay.NextIsWanted` | core/utils/acme/autocert/renewal.go:145-154 | The delay is the time to the margin less the jitter, or zero if that is past, if and only if the subtractions neither saturate nor wrap into a positive value |
| `RenewalDelay.LandsInTheHour` | core/utils/acme/autocert/renewal.go:145-154 | A renewal lands in the hour that ends at expiry minus the margin, or happens at once |
| `RenewalDelay.NextOfValidCert` | core/utils/acme/autocert/renewal.go:145-154 | For a certificate that has not expired, as validCert demands, the delay is the wanted one if and only if the expiry is at most the largest Duration ahead, some 292 years; past that the renewal comes early |
| `RenewalDelay.FarAhead` | core/utils/acme/autocert/renewal.go:146-149 | A certificate with the usual expiry for one without an end is due for renewal thousands of years early |
| `RenewalDelay.AfterFailure` | core/utils/acme/autocert/renewal.go:81-84 | After an error the delay is half an hour and the random part, so less than an hour |
| `VerifyOrder.CA.WaitOrder` | core/utils/acme/rfc8555.go:261-296 | An order comes back only if its status is ready or valid |
| `VerifyOrder.Manager.Fulfill` | core/utils/acme/autocert/autocert.go:807-826 | Success puts the response in the place for its kind of challenge and nowhere else, and the cleanup is for that place; failure changes nothing |
| `VerifyOrder.Manager.NextChallenge` | core/utils/acme/autocert/autocert.go:732-736 | The first type on offer from the index on is taken, the types passed over are not on offer, and all of them are used up |
| `VerifyOrder.PickChallenge` | core/utils/acme/autocert/autocert.go:764-771 | The first challenge of the type asked for, or none exactly when there is none |
| `VerifyOrder.Manager.Attempt` | core/utils/acme/autocert/autocert.go:731-751 | Dealing with a pending authorization gives up only if no type left is on offer, calls for a new order only after a failed response, acceptance or finding, and otherwise settles that authorization; each thing it does is what may follow |
| `VerifyOrder.Manager.Conclude` | core/utils/acme/autocert/autocert.go:746-751 | An authorization is settled only after the CA has been told and has found it valid; a failure of either calls for a new order, and never for giving up |
| `VerifyOrder.Manager.AuthorizeAll` | core/utils/acme/autocert/autocert.go:721-752 | When the loop over an order's authorizations ends well, every one of them has been settled, in order; it gives up only for a stated reason |
| `VerifyOrder.Manager.Flow` | core/utils/acme/autocert/autocert.go:691-762 | Everything it does is what may follow what it has done; no order is returned only if no order was to be had, the order is neither ready nor pending, an authorization could not be fetched, or one is pending and offers no type that is left; the deferred calls are just those called for |
| `VerifyOrder.RunDeferred` | core/utils/acme/autocert/autocert.go:842-850 | The deferred calls run last first and empty the token maps of exactly their places |
| `VerifyOrder.VerifyRFC` | core/utils/acme/autocert/autocert.go:691-762 | Either an order comes back that was ready when made or is the one waited for, ready or valid, or one of those reasons to give up is the last thing that happened; each type is used at most once over all orders, so there are at most as many fulfilments as types; orders are at most one more than types used and failed waits; no token is left under a place used |
| `VerifyOrder.SetbacksStartOver` | core/utils/acme/autocert/autocert.go:739-757 | A failed fulfilment, Accept, WaitAuthorization or WaitOrder is always followed by another AuthorizeOrder |
| `VerifyOrder.AuthorizedIsAnswered` | core/utils/acme/autocert/autocert.go:721-751 | An authorization that was pending is found valid only right after a challenge on offer in it was picked, its response put in place, and the CA told of that very challenge |
| `VerifyOrder.WaitedIsSettled` | core/utils/acme/autocert/autocert.go:752-761 | The order that is waited for is the latest, and all its authorizations have been settled, in order |
| `VerifyOrder.TypesOnce` | core/utils/acme/autocert/autocert.go:731-736 | The types used are in increasing order of index over all orders, none twice |
| `VerifyOrder.Covers` | core/utils/acme/autocert/autocert.go:697-757 | Each order after the first is paid for by a type used or a failed wait |
| `VerifyOrder.UndoneExactly` | core/utils/acme/autocert/autocert.go:706-708 | The authorizations of an order are handed to deactivation as often as it was created, and a place is cleaned up as often as it was filled |
| `NoncePool.StepKeeps` | core/utils/acme/acme.go:657-701 | After every step of any request each nonce is in one place only: the pool, one request's hands, or spent once |
| `NoncePool.RunKeeps` | core/utils/acme/acme.go:657-721 | And so after every interleaving of requests |
| `NoncePool.NoReplay` | core/utils/acme/http.go:216-244 | Over every run no nonce signs two requests, pooled nonces have not been spent, all spent ones came from the server, and the pool never exceeds 100 |
| `NoncePool.EveryNonceAccounted` | core/utils/acme/acme.go:657-721 | Conservation over every run: each nonce the server has given is spent, pooled, in the hands of a request, or given up by a failed signature, a pool of a hundred, or the clearing after a bad-nonce answer |
| `Post.RetryTimer.Backoff` | core/utils/acme/http.go:38-51 | The caller may go on if and only if the backoff function is positive at the current count and the context does not end in the wait |
| `Post.Client.PopNonce` | core/utils/acme/acme.go:657-677 | From a pool that is not empty one member leaves it and no request is made; from an empty one the nonce is newly given out; in no case has it been spent |
| `Post.Client.AddNonce` | core/utils/acme/acme.go:687-701 | The pool gains at most the answer's nonce and never grows past its bound |
| `Post.Client.AccountKID` | core/utils/acme/acme.go:146-160 | A known account ID costs no request; the nested lookup keeps the pool sound and leaves in it only nonces that were there or are newer |
| `Post.Client.SendOne` | core/utils/acme/http.go:226-243 | A request spends one nonce, from the pool or newer than the call, that no request has carried before |
| `Post.Client.PostNoRetry` | core/utils/acme/http.go:216-244 | The same with the account lookup before it, which may itself spend nonces: if the pool was empty the nonce was given out since the call |
| `Post.Client.MayRetry` | core/utils/acme/http.go:186-201 | A bad-nonce answer empties the pool; post goes round again if and only if the answer is retriable or bad-nonce, the backoff at the next count is positive, and the context does not end in the wait |
| `Post.BadNonceIs` | core/utils/acme/http.go:291-298 | The problems taken for bad-nonce are those whose type, ends in :badnonce, each of these nine characters in either case |
| `Post.Client.Post` | core/utils/acme/http.go:174-202 | A response comes back if and only if the last answer is accepted; none comes back only if there is no key, something was refused on the way (a request, nonce, signature or the wait), or the last answer is neither retriable nor bad-nonce, or has no positive backoff; another attempt only after an answer that is one of those; after bad-nonce the next nonce was obtained after that answer; every attempt spends a nonce never sent before |
| `Post.AttemptsBounded` | core/utils/acme/http.go:38-42 | If the backoff is not positive from count n on there are at most n attempts, but one if n is zero |
| `Jws.WidthIsCeiling` | core/utils/acme/jws.go:216-219 | The width is the number of bits over eight, rounded up, if and only if the test on bytes agrees with the one on bits: so for 256, 384 and 521, and not for 224 |
| `Jws.EncodeSignature` | core/utils/acme/jws.go:215-223 | The two in-place copies leave a buffer of twice the width with R and S right-aligned, or panic exactly when a magnitude is too long for where it is sliced |
| `Jws.BufferReadsBack` | core/utils/acme/jws.go:220-222 | No panic if and only if R fits the width and S twice the width; and then the halves read back as R and S if and only if S fits the width, too |
| `Jws.SignatureReadsBack` | core/utils/acme/jws.go:204-223 | For each supported curve and all R and S of its size, the signature is twice the octets long and its halves are R and S |
| `Jws.EncodeCoordinate` | core/utils/acme/jws.go:175-186 | The padded coordinate always decodes to the coordinate, and has the curve's octets if and only if the coordinate fits them |
| `Jws.PaddedMagnitude` | core/utils/acme/jws.go:180-182 | Left-padding the minimal bytes gives the fixed-width encoding |
| `Placeholders.AdaptPlaceholdersToDialect` | core/orm/helpers.go:1124-1137 | Splitting, tagging and joining numbers each question mark in place, for the two dialects only |
| `Placeholders.NumberedAppend` | core/orm/helpers.go:1128-1134 | What follows a piece of text is numbered on from where that piece left off |
| `Placeholders.OwnNumber` | core/orm/helpers.go:1128-1134 | A question mark gets one more than the number of those before it |
| `Strings.ItoaIs` | core/orm/helpers.go:1128-1134 | The number tagged on is decimal: read digit by digit it gives the number back, and it has no leading zero |
| `Builder.GetStructInfos` | core/orm/helpers.go:1098-1122 | Names in order; for a repeated name the last value and the last tag win |
| `Builder.Collect` | core/orm/builderS.go:98-128 | One value for each name, the places of the ignored names, and a question mark for each of the others |
| `Builder.CutOne` | core/orm/builderS.go:131-137 | A deletion at a place moved down by the earlier ones removes just that member and stays in range |
| `Builder.CutIgnored` | core/orm/builderS.go:130-138 | After the shifting deletions names and values are those not ignored, in order |
| `Builder.InStepIff` | core/orm/builderS.go:94-138 | For every model, Insert's columns are the names of exactly the fields not ignored, in order, each with the value of its own field, if and only if fields of one column name are ignored together and, if they are not, have one value |
| `Builder.ValuesAgree` | core/orm/helpers.go:1108-1115 | Every field finds its own value under its name if and only if fields of one name have one value |
| `Builder.FlagsAgree` | core/orm/builderS.go:106-122 | Every field is left out by its own tags if and only if fields of one name are left out together |
| `Builder.IgnoredTagIs` | core/orm/builderS.go:106-116 | A tag keeps a column out if and only if it is autoinc, pk or -, or has m2m somewhere in it |
| `Builder.DistinctInStep` | core/orm/builderS.go:94-138 | So Insert is in step for all models with distinct names |
| `Builder.SameNameCollides` | core/orm/helpers.go:1108-1115 | For two untagged fields of one column name Insert is in step if and only if their values are equal |
| `Builder.InsertInStep` | core/orm/builderS.go:139-150 | Columns, placeholders and values are equally many, and the statement is, letter for letter, INSERT INTO with the table, the columns in brackets and, after VALUES, $1, $2 and so on, or for other dialects a question mark for each column |
| `Builder.Builder.Insert` | core/orm/builderS.go:73-155 | That statement and those values go to the database, and nothing goes when a table or a database is missing |
| `Builder.Builder.Set` | core/orm/builderS.go:174-207 | A condition is demanded, and its arguments come after the call's own |
| `Builder.SetInStep` | core/orm/builderS.go:200-202 | The condition's parameters are numbered on from the query's, and each points at the argument given for it |
| `Builder.ParamIs` | core/orm/helpers.go:1128-1134 | The first parameter is $1, the second $2, and so on: a dollar sign and the decimal number |
| `Routes.Table.Append` | core/kamux/kamux.go:144 | A route is added at the end, in place or in a larger array |
| `Routes.Table.Cut` | core/kamux/kamux.go:141 | The tail moves down in the same array, whose old last slot keeps its value |
| `Routes.Table.Register` | core/kamux/kamux.go:135-144 | Deleting while ranging over the old slice stays in range and removes exactly the old route of the pattern; the new one comes last; patterns stay distinct |
| `Routes.RegisteredDistinct` | core/kamux/kamux.go:139-144 | A registration keeps the patterns of a table distinct |
| `Routes.TableIsLatest` | core/kamux/kamux.go:123-145 | Over every sequence of registrations each table holds the latest route of each pattern and no other, in the order of those registrations |
| `Routes.LatestMembers` | core/kamux/kamux.go:139-144 | A route is in the table if and only if no later registration has its pattern |
| `Routes.Router.Handle` | core/kamux/kamux.go:123-145 | Only the table of the method changes, and as one registration changes it; the route keeps the origins it is given, but none under GET, HEAD and OPTIONS |
| `Routes.TableForIs` | core/kamux/server.go:285-310 | A request goes to a table of its own verb, or to none if and only if there is none; among the three of a GET a path with /ws/ somewhere in it goes to the websockets, any other with /sse/ in it to the event streams, the rest to the handlers |
| `Routes.Router.ServeHTTP` | core/kamux/server.go:281-340 | The first matching route of the request's table serves, the default route if there is none, and an unknown method is refused |
| `Routes.OverrideServes` | README.md:224-230 | After an override no other route of the pattern is left, and the new one serves a path if and only if no route of another pattern in the table matches it |
| `Routes.OverrideTakesOver` | README.md:224-230 | For a path that the old route served, the new one takes it over if and only if no route after the old one matches it |
| `Routes.OverrideCanLose` | core/kamux/server.go:311-339 | Two overlapping patterns for which the override loses the path |
| `Domain.CheckDomain` | core/kamux/server.go:232-278 | No error if and only if the name is empty, or at most 255 long and made of well-formed labels of at most 63 joined with dots, the last not starting with a digit; an error tells the truth about the offsets it gives |
| `Domain.DomainIsLabels` | core/kamux/server.go:232-278 | Splitting on dots accepts a name if and only if some list of well-formed labels joins to it |
| `Domain.LdhCharacters` | core/kamux/server.go:255 | The characters let through are just the letters, the digits and the hyphen |
| `Domain.DescribedIsNotOk` | core/kamux/server.go:232-278 | Whatever one of the errors describes makes the name a bad one |

## Left out

- Handshakes, HTTP headers, TLS, dialling, listeners and deadlines of the WebSocket package: network plumbing.
- `Conn.Close` and `WriteClose` with other statuses on one connection object: in `WriteLock` a close is one more frame.
- What Go's memory model allows an unsynchronised read of `locked` to see: here it sees the latest write.
- `hybiFrameReader.length` (hybi.go:176): it can overflow and nothing relies on it.
- Reserved opcodes are treated as data, as the code does; no property of them is claimed beyond that.
- Buffering: the buffered writer is a sink that takes a prefix when it breaks, and flushing order inside it is not modelled.
- The failure of `crypto/rand`, which makes a write fail before anything is written.
- `CertLifecycle`, `Renewal`, `WriteLock` and `NoncePool` are on values rather than classes: their steps cut methods at the points where goroutines meet, which no sequential method contract can show.
- The copies of challenge tokens in the cache, and `Discover` and the waits inside one client call: a call is one request, polling in `WaitOrder` excepted.
- Cryptography, X.509, PEM, JSON, base64 and the cache of certificates: `validCert`, `cacheGet` and `authorizedCert` succeed or fail in any way.
- `domainRenewal.do` beyond its effect on the state map and its delay; that it may use the cache instead of the CA changes neither.
- `get`: the loop of `post` without nonces. `defaultBackoff` and `retryAfter`: any function may be the backoff.
- `Post.Client.Post`: the URL, the body and the key of a request are not modelled; one client's requests are taken one at a time there, and interleaved in `NoncePool`.
- `jwsHasher` and the RSA cases of `jwsSign` and `jwkEncode`.
- `Builder.Builder.Insert`: the default choice of a database, the cache event and the answer of the database are not modelled.
- `Where`, `Delete`, selects, migrations and the query cache: string assembly, and an invalidation that is published asynchronously.
- The effect of a question mark inside a quoted string, which the code numbers like any other.
- Parameters of a matched path, WebSocket clients of a route, and the middlewares around dispatch.
- Admin views, templates, event bus, logger, file watcher, uploads, environment loading, passwords.
