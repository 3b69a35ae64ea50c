# A verified model of the ESPHome API client

The client talks to an ESPHome device over one TCP connection. Frames travel in one of two formats: a
plain one (a zero byte, two varints, the data) and an encrypted one (a length and a sealed payload).
Several goroutines send on the connection, one read loop receives from it and dispatches each message
to the handlers registered for its type. Some handlers belong to calls that wait for an answer, others
keep a cache of the device's entities up to date. When the connection breaks, the read loop launches a
reconnect loop, which makes a new connection and launches the next read loop.

The project models these parts and proves what they promise together.

| File | What it holds |
|---|---|
| `Bytes.dfy`, `Varint.dfy`, `Streams.dfy` | machine integers, base 128 varints, the two ends of a connection |
| `Codec.dfy`, `CodecIO.dfy` | the plain frame format as functions, and the code that writes and reads it |
| `Writers.dfy` | many goroutines sending plain frames, one step for each `Write` call |
| `Noise.dfy`, `NoiseIO.dfy` | the encrypted format over an ideal cipher, the transport and its handshake |
| `NoiseRuns.dfy` | many goroutines sending encrypted frames to a peer that receives them |
| `Messages.dfy`, `Replay.dfy`, `Registry.dfy` | messages, what the cache ought to hold after a history, the cache itself |
| `Router.dfy` | the handler table and dispatch |
| `Handlers.dfy` | what dispatches do to the registry, and whole histories of table and registry |
| `Requests.dfy`, `Calls.dfy` | the life of a waiting call, the calls themselves |
| `Subscriptions.dfy` | state subscriptions and what reconnects do to them |
| `Protobufs.dfy`, `ReadLoop.dfy` | the generated code, and the way from bytes on the wire to cached states |
| `Lifecycle.dfy`, `Service.dfy` | read, reconnect and keepalive loops and `Close`, interleaved step by step, and what their runs promise |
| `Backoff.dfy` | the waits between reconnect attempts |

Constants and formats follow the "Base 128 Varints" section of the Protocol Buffers Encoding guide,
section 3 (message length limit) and section 5.1 (the cipher's counter) of the Noise Protocol
Framework, revision 34. The cipher is ideal: sealing adds 16 bytes, and what was sealed at a counter
opens at that counter and at no other. `Noise.TaggingCipherIsIdeal` shows that such a cipher exists.

## Promises that the code does not keep everywhere

Each of these is stated with the exact condition under which the promise holds.

- A frame is read back exactly when its data is within `MaxMessageSize`. `WriteFrame` has no limit of
  its own, so a longer frame is sent and then refused by the reader (`Codec.RoundTripIff`).
- `expectedName` is documented as validated against the name that the server reports
  (`transport/noise.go:54`). A hello without a zero byte reports none and is accepted whatever name was
  expected (`NoiseIO.AcceptedHello`, `NoiseIO.NamelessHelloIsAccepted`).
- A write on the encrypted transport is refused for its size after it was sealed, so it uses up a
  counter. Frames open at the peer exactly when no write was refused before them
  (`NoiseRuns.OpensIff`, `NoiseRuns.RefusalIsFinal`); none is refused exactly when data has at most
  65515 bytes (`NoiseRuns.RefusedIff`). `NoiseRuns.RefusalHappens` is a run with a refused write.
- `Close` is final exactly when, at the moment it is through, no read loop is past its look at the
  context and about to launch a reconnect loop, and no reconnect loop has still to clear the closed
  flag (`Lifecycle.CloseIsFinalIff`). There are runs that reach such a moment (`Lifecycle.CloseCanBeUndone`).
- After a reconnect that subscribes again, the older state subscription is still live, so there is one more
  after each; after one whose request could not be sent there are no more
  (`Subscriptions.StateSubscriber.Reconnects`). Ordinary states do not notice how many there are
  (`Replay.PlainRepeated`); with more than one, a finished camera image is right exactly when all its
  chunks but the last are empty (`Replay.CameraRepeated`).
- A listing, and a request for GATT services, panic exactly when a second message that ends them
  arrives before their handlers are gone (`Calls.ListEntities`, `Calls.BluetoothGATTGetServices`).
- `requestResponse` never keeps the read loop waiting. The GATT reads, writes and notify requests do,
  exactly when more answers match than their channel and the caller take
  (`Calls.BluetoothGATTReadOrWrite`).
- The handlers registered in a run all get different ids exactly when there are at most 2^64 of them
  (`Router.IdsDifferIff`); the one after that replaces the first if it is still live (`Router.IdsComeAround`).
- Reconnect waits never get shorter exactly when the base is at most five minutes
  (`Backoff.NeverShorterIff`).

## Model

| member | source | states |
|---|---|---|
| Varint.RoundTrip | codec/codec.go:31-37 | every 64-bit value spelled in seven-bit groups is read back, whatever follows it is untouched, and it takes at most ten bytes |
| Varint.Accepted | codec/codec.go:86-99 | an accepted varint, padded or not, fits 64 bits, and its shortest spelling is no longer than the bytes read |
| Varint.Extension | codec/codec.go:86-99 | a value or an overflow decided on a part of the stream is not revised when more bytes arrive; only a read error can be |
| Varint.EncodeMeaning | codec/codec.go:31-37 | the bytes of a varint hold the bits of the number seven at a time, least significant first, with the top bit set on all but the last, and no byte more than needed |
| Varint.DecodeMeaning | codec/codec.go:86-99 | the number read has the bits of exactly the bytes consumed |
| Varint.CutOff | codec/codec.go:86-99 | a varint that breaks off is an unexpected end of file, or the plain one if nothing of it was there |
| Streams.Conn.Write | codec/codec.go:25 | a write sends all its bytes, or fails after a strict prefix of them |
| Streams.SentIsPrefix | codec/codec.go:23-50 | writing buffers in turn and stopping at the first failure puts on the wire the longest prefix of their concatenation that the peer accepts |
| Streams.Stream.Read | codec/codec.go:105 | a read takes some of the unread bytes, in order, and at least one unless none are left, when it reports how the stream ends |
| Codec.WritesSpellTheFrame | codec/codec.go:23-50 | the three or four buffers, joined, are the frame: zero byte, size, type, data |
| Codec.RoundTrip | codec/codec.go:70-114 | a frame of any 32-bit type with data within the limit is read back, followed by anything, and exactly what followed is left |
| Codec.OversizedIsRefused | codec/codec.go:91-93 | a longer frame, which the writer sends, is refused after its size was read, with the type and the data still unread |
| Codec.RoundTripIff | codec/codec.go:23-114 | a frame comes back if and only if its data has at most 10485760 bytes |
| Codec.TypeIsCut | codec/codec.go:96-100 | a type of more than 32 bits is cut to its low 32 |
| Codec.PrefixFree | codec/codec.go:23-50 | byte streams that start with frames and are equal start with the same frame: no encoding is a prefix of another |
| Codec.RoundTripAll | codec/codec.go:23-114 | reading any list of frames followed by any bytes gives the list, and then whatever those bytes give |
| Codec.UniqueDecoding | codec/codec.go:23-50 | two lists of frames with the same bytes are the same list |
| Codec.NormalForm | codec/codec.go:77-113 | whatever is accepted, padded varints and types above 32 bits included, starts with a zero byte, has data within the limit and a canonical spelling that is no longer and decodes to the same frame and rest |
| Codec.Extension | codec/codec.go:70-114 | a frame or a refusal decided on a part of the stream stays when more arrives; every other error has consumed the whole part |
| Codec.PartialFrame | codec/codec.go:70-114 | a strict prefix of a frame is neither read as a frame nor refused |
| Codec.CutOff | codec/codec.go:77-109 | the exact error of a frame that breaks off at any byte: in which part it did, and whether that part had begun |
| CodecIO.PutUvarint | codec/codec.go:31 | fills the start of the buffer with exactly the varint, returns its length and leaves the rest of the buffer alone |
| CodecIO.WriteUvarint | codec/codec.go:31-34 | one Write call with exactly the bytes of the varint, or a strict prefix when it fails |
| CodecIO.WriteFrame | codec/codec.go:23-50 | the Write calls made, for any peer that stops taking bytes at any point: all of the frame on success, the prefix that was taken on failure, and success exactly when all of it was taken |
| CodecIO.ByteReader.ReadByte | codec/codec.go:58-67 | over readers that deliver bytes or an error but not both: the next unread byte, or the end of the stream |
| CodecIO.ReadUvarint | codec/codec.go:86-99 | byte-by-byte reading with shifts agrees with the recursive decoder on value, error and unread bytes |
| CodecIO.ReadFull | codec/codec.go:105 | fills the buffer with the next bytes, or reports how the stream ended; an end in the middle is unexpected |
| CodecIO.ReadFrame | codec/codec.go:70-114 | for any split of the stream into non-empty pieces, the frame or the error and the unread bytes are those of the unsplit stream, although header and data are read through two handles; the payload buffer is never larger than the limit, also when the payload breaks off |
| Writers.LockKeepsInv | client.go:607-608 | taking the mutex keeps the wire a list of whole frames and a prefix of the holder's |
| Writers.WriteKeepsInv | client.go:609 | so does every single Write call |
| Writers.UnlockKeepsInv | client.go:608 | so does releasing it, which completes the holder's frame |
| Writers.RunsKeepInv | client.go:602-610 | the wire is whole frames in the order of the mutex and a prefix of the holder's frame after every run of any number of writers |
| Writers.ReadBack | client.go:602-610 | in every reachable state a reader gets exactly the frames written so far and then waits; each writer's frames are there in the order issued, none lost, added or repeated but the one it is still sending |
| Noise.WrapRoundTrip | transport/noise.go:262-307 | a payload of at most 65535 bytes is read back from its frame, and what follows is left |
| Noise.HeaderBytes | transport/noise.go:267 | the header byte by byte: 1, then the length, high byte first |
| Noise.UnwrapBytes | transport/noise.go:280-307 | an accepted stream starts with 1, and the payload is the bytes that the two length bytes count |
| Noise.EncryptedDeviceIsRefused | codec/codec.go:81-83 | a stream of the encrypted format is refused by the plain reader at its first byte |
| Noise.PlainDeviceIsRefused | transport/noise.go:286-289 | a stream of the plain format is refused by the encrypted reader as such |
| Noise.OtherPreambleIsRefused | transport/noise.go:286-291 | any other first byte is reported |
| Noise.CutOff | transport/noise.go:281-304 | the exact error of a frame that breaks off at any byte |
| Noise.PlaintextBytes | transport/noise.go:199-203 | the plaintext byte by byte: type, then length, high byte first, then the data |
| Noise.ParsePlaintext | transport/noise.go:200-238 | the plaintext parses to the same data and to the type cut to 16 bits |
| Noise.ReceiveSealed | transport/noise.go:198-239 | a frame sealed at one counter is received by a peer at another exactly when the two are equal, and only then does the peer's counter move |
| Noise.TooShortIff | transport/noise.go:224-238 | a payload that opens is refused if and only if it has fewer than four bytes, and uses up the counter either way |
| Noise.ExhaustedReceiver | transport/noise.go:224-227 | a receiver whose counter is used up opens nothing |
| Noise.ReceiveAllSealed | transport/noise.go:198-239 | a list of messages sealed from the counter that both sides have reached is received as exactly this list |
| Noise.ReceiveAllStep | transport/noise.go:218-239 | receiving a whole stream is receiving one message and then the rest, up to the first error |
| Noise.TaggingCipherIsIdeal | transport/noise.go:209 | a cipher with the assumed behaviour exists |
| NoiseIO.CipherState.Encrypt | transport/noise.go:209 | seals at the current counter and moves it on, or refuses when the counter is used up |
| NoiseIO.CipherState.Decrypt | transport/noise.go:224 | opens at the current counter, which moves on success only |
| NoiseIO.NoiseTransport.WriteNoiseFrame | transport/noise.go:262-277 | refuses a payload above 65535 bytes without writing; otherwise writes header and payload until the peer stops taking bytes |
| NoiseIO.NoiseTransport.ReadNoiseFrame | transport/noise.go:280-307 | payload or error, and the unread bytes, are those of the unsplit stream |
| NoiseIO.NoiseTransport.WriteFrame | transport/noise.go:198-215 | seals first: the counter moves whether the frame is then written, fails or is refused for its size |
| NoiseIO.NoiseTransport.ReadFrame | transport/noise.go:218-239 | receives the next message at the current counter; the counter moves exactly when the frame opens |
| NoiseIO.NoiseTransport.SendGreeting | transport/noise.go:113-131 | sends the client hello and the handshake frame, in this order; on any failure the Write calls made are those of a prefix of the two, and a handshake frame that is too large is not started |
| NoiseIO.NoiseTransport.ReadServerHello | transport/noise.go:133-162 | takes one frame and sets name and address as the hello spells them |
| NoiseIO.NoiseTransport.TakeHello | transport/noise.go:139-162 | name and address as the hello spells them; a mismatch is an error but leaves the name set |
| NoiseIO.NoiseTransport.ReadAnswer | transport/noise.go:164-187 | takes one frame and derives the keys from it, or says why not |
| NoiseIO.NoiseTransport.PerformHandshake | transport/noise.go:91-193 | two frames out, as far as the peer takes them, then two in; keys are installed with both counters at zero on success only, and nothing behind the answer is consumed |
| NoiseIO.HelloRoundTrip | transport/noise.go:149-162 | a hello that spells a name and an address yields exactly these, whatever follows; another expected name is a mismatch |
| NoiseIO.AcceptedHello | transport/noise.go:139-162 | with an expected name, a hello is accepted if and only if it starts with 1 and, should it contain a zero byte, names exactly the expected name |
| NoiseIO.NamelessHelloIsAccepted | transport/noise.go:150 | the hello of one byte is accepted whatever name was expected |
| NoiseIO.HandshakeRoundTrip | transport/noise.go:133-190 | a server that names itself as expected and completes the handshake is accepted, and the bytes after its answer are left for the first sealed frame |
| NoiseIO.KeysIff | transport/noise.go:133-190 | keys are derived if and only if a hello comes that is accepted, then an answer that starts with a zero byte and with which the library can finish |
| NoiseIO.RejectedAnswer | transport/noise.go:174-181 | any other first byte yields no keys, and the explanation "Handshake MAC failure" alone means that the key is wrong |
| NoiseIO.HandshakeErrors | transport/noise.go:139-187 | the errors of an empty hello or answer, another protocol byte, and an answer the library cannot use |
| NoiseIO.GreetingBytes | transport/noise.go:114-131 | what goes out first, byte by byte |
| NoiseIO.ParseNamed | transport/noise.go:149-162 | a hello without an address keeps the address there was |
| NoiseRuns.RunsKeepInv | transport/noise.go:198-277 | after every run: who holds the mutex, how the counters relate to frames sent and refused, and what is in transit |
| NoiseRuns.CounterConservation | transport/noise.go:205-215 | the send counter is the number of frames on the wire, of writes refused for size and of the one in flight; the i-th frame on the wire is sealed at i plus the refusals before it |
| NoiseRuns.RefusedIff | transport/noise.go:262-265 | the size check refuses exactly data above 65515 bytes |
| NoiseRuns.SmallPayloadsAreNotRefused | transport/noise.go:262-265 | a run whose data stays within that refuses nothing |
| NoiseRuns.Lockstep | transport/noise.go:198-239 | then, under any interleaving, the i-th frame is sealed at i, the receiver's counter is the number of frames read, no frame fails to open, and what was delivered is a prefix of what was sent with types cut to 16 bits |
| NoiseRuns.OpensIff | transport/noise.go:205-239 | a frame opens at a receiver that kept pace with the wire if and only if no write was refused before it |
| NoiseRuns.RefusalIsFinal | transport/noise.go:205-239 | after one refused write, in every continuation, no later frame opens and the receiver never gets past the frames before it |
| NoiseRuns.RefusalHappens | transport/noise.go:205-215 | one goroutine that sends more than 65515 bytes of data gets there |
| Messages.TypeIds | pb/registry.go:9-49 | which domain each listed type belongs to, and the single ids |
| Messages.ListingsAreListed | pb/registry.go:9-27 | every entity and every service travels under a type that a listing registers for |
| Messages.StatesAreSubscribed | pb/registry.go:30-46 | every state travels under a type that a subscription registers for |
| Replay.LastRegIsLast | entities.go:773-1074 | the recursive search finds position i if and only if i registers the entity and neither a later registration nor a Clear follows |
| Replay.KeyRegIsSlotReg | entities.go:541-543 | the last registration of a key in any domain is the last one in its own domain, and a key has one exactly when some domain has |
| Replay.RegistersByFields | entities.go:773-1074 | by its fields, what a message registers |
| Replay.UpdatesByFields | entities.go:1084-1222 | by its fields, whose state a message is: every domain but buttons has its state, cameras their images |
| Replay.CurrentCache | entities.go:1080-1225 | the object registered for a domain and key has exactly the later states of that domain and key folded in |
| Replay.PlainCache | entities.go:1080-1225 | outside the camera domain that is the last state received, or the initial one |
| Replay.MissingState | entities.go:1085-1190 | the five domains whose entities know that their state is missing: from the start, and as the last message says |
| Replay.CameraCache | entities.go:1147-1158 | a camera holds the chunks since the previous done one, joined, also when the first of them are empty |
| Replay.PlainRepeated | entities.go:1080-1225 | states delivered any number of times in a row leave the same cache |
| Replay.CameraRepeated | entities.go:1147-1158 | a finished image delivered two or more times is its last chunk alone, which is right if and only if the chunks before it are empty |
| Replay.ViewStep | entities.go:773-1249 | what the history says about one entity, its counting registration and the states since, changes with a registration, a state or a Clear of it and with nothing else |
| Registry.Entity.TakeState | entities.go:1085-1090 | the object's cached state is replaced by the message's |
| Registry.Entity.TakeImage | entities.go:1147-1158 | first chunk replaces, later chunks append |
| Registry.EntityRegistry.constructor | entities.go:547-568 | an empty registry agrees with the empty history |
| Registry.EntityRegistry.HandleListEntityMessage | entities.go:773-1074 | the new object, with the fields of the message, is under its domain and key, its key and its name, and nothing else in the maps changes; every cached state agrees with the history extended by this message; it is handled exactly when it registers an entity |
| Registry.EntityRegistry.HandleStateMessage | entities.go:1080-1225 | a state or an image whose key is in its domain is handled and taken, field by field, by the object there and by no other; nothing else is handled; cached states agree with the history and no map changes |
| Registry.EntityRegistry.Clear | entities.go:1228-1249 | nothing is found any more, by any lookup |
| Registry.EntityRegistry.ByKey | entities.go:749-753 | finds a key exactly when some domain has it, and then the very object in its own domain's map |
| Registry.EntityRegistry.ByName | entities.go:756-760 | finds the object made by the last registration under the name since the last Clear |
| Registry.EntityRegistry.Len | entities.go:763-767 | at most the sum of the domain sizes, and equal to it exactly when no key lives in two domains |
| Registry.EntityRegistry.Entities | entities.go:573-581 | the entities of a domain, each once |
| Registry.ReplayedEntry | entities.go:773-1225 | in every reachable state an entity is in its domain's map exactly when it was registered since the last Clear, with the last registration's fields and all its later states folded in |
| Registry.HeldEntry | entities.go:773-1225 | the same in terms of that view: an entity is cached exactly when the history holds it, with these fields and these states folded in |
| Registry.IndexCoherence | entities.go:541-543 | byKey holds the very object of its own domain's map, and its keys are the union of the domains' keys |
| Registry.NamedEntry | entities.go:756-760 | byName holds the last entity registered under the name; it is the object of its domain's map exactly when its key was not registered there again since |
| Registry.KeyCount | entities.go:763-767 | size of byKey against the sum of the domain sizes |
| Router.IdsAreNew | router.go:36-38 | within 2^64 registrations, with any number of removals, the next id is larger than every id issued and not in use |
| Router.SameIdIff | router.go:36-38 | two registrations of a run get the same id if and only if a multiple of 2^64 registrations lies between them |
| Router.IdsDifferIff | router.go:36-38 | all registrations of a run get different ids if and only if there are at most 2^64 |
| Router.IdsComeAround | router.go:36-38 | from a new router, one registration and 2^64 - 1 others later, the next registration replaces the first handler, still live |
| Router.ManyRegistrations | router.go:28-38 | there are runs with that many registrations |
| Router.OnAddsOne | router.go:28-43 | a registration adds its own handler under the next id and touches no other |
| Router.RemoveOwnOnly | router.go:46-52 | a removal takes away its own handler and no other, and a second time changes nothing |
| Router.Router.On | router.go:28-43 | adds one handler under the next id and changes nothing else |
| Router.Router.Remove | router.go:46-52 | the table without that handler |
| Router.Router.Dispatch | router.go:55-75 | calls exactly the handlers that were registered when it began, each once, whatever they and others register and remove meanwhile, all of which takes effect in order |
| Handlers.CallsOf | router.go:64-74 | a dispatch makes as many calls to a set of handlers as there are of them in the table, since each is called once |
| Handlers.ChangesAreContribution | client.go:358-413 | the registry gains a registration for every lister and a state for every subscription on the type, in whatever order the handlers are called |
| Handlers.HandleMessage | client.go:486-488 | a dispatch leaves the table alone and gives the registry exactly that |
| Handlers.HandleMessageMeanwhile | router.go:55-75 | a dispatch during which handlers and others register and remove handlers is a dispatch at the moment of its snapshot followed by these actions |
| Handlers.EntityFollowsEvents | client.go:358-413 | after any history of dispatches, registrations, removals and Clears, the registry holds for an entity what the messages about it say, if n subscriptions were there whenever a state of it came and somebody listed whenever a listing of it came; all other messages are left open |
| Handlers.WatchListed | entities.go:773-1249 | what they say is the last listing with the states after it |
| Handlers.WatchUnlisted | entities.go:1080-1225 | without a new listing the states are added to those there were |
| Requests.ReceivedStep | router.go:55-75 | of one more event, what is received is its message, if it is one of the types |
| Requests.ActionWithoutCommutes | router.go:28-52 | what others do to the table is the same whether our handlers are there or not |
| Requests.RegisterAll | client.go:349-369 | one handler for each type under fresh ids, and nothing else in the table changes |
| Requests.RemoveAll | client.go:370-374 | afterwards exactly our handlers are gone |
| Requests.OwnCalls | router.go:64-74 | a dispatch calls one handler of ours if we registered one for the type, and none otherwise |
| Requests.ContributionAdds | client.go:358-363 | with our handlers in the table the registry gains what it would have gained without, and one registration where we have a lister |
| Requests.Run | router.go:55-75 | our handler is called with each message of its types once, in order, and table and registry go through the same history as without us but for our handlers and listings, whatever else is dispatched, registered, removed or cleared |
| Calls.Collect | client.go:299-305 | registering, waiting and removing leave table and registry as they would have been without us, up to the ids used up and what our listers put in |
| Calls.RequestResponse | client.go:296-319 | the first message of the type after the registration, or the reason for giving up; on every path table and registry are as if the call had not been made |
| Calls.ListEntities | client.go:344-390 | exactly the entity and service messages dispatched from the registration until the caller looks, in order; in the registry they are interleaved, in order of dispatch, with the states and listings that others take at the same time; whether it succeeds, times out, cannot send or sees the connection closed, no handler remains; it panics exactly when a second done message comes |
| Calls.ListedWithStates | client.go:356-369 | what a listing leaves for an entity: its last listing and, for each of n live subscriptions, the states dispatched after it, during the listing or later |
| Calls.ListedUpToDone | client.go:350-352 | if nothing is listed after the done message, the listing is what came before it, whatever other types were interleaved |
| Calls.BluetoothGATTGetServices | bluetooth.go:91-149 | the service lists of this address that came before the caller looked, joined in order of arrival, or its error; no handler remains; panics exactly when a second message ends the request |
| Calls.OtherDevicesDoNotMatter | bluetooth.go:98-128 | a service list, done message or error with another address, or a message of any other kind, inserted anywhere, changes nothing of what the call sees |
| Calls.OwnMessagesMatter | bluetooth.go:98-128 | one of these three with this address adds exactly itself, in its place |
| Calls.WhatServiceMessagesDo | bluetooth.go:98-128 | a service list contributes its services, a done message or an error ends the request |
| Calls.BluetoothGATTReadOrWrite | bluetooth.go:152-242 | the first answer or error for this address and handle; the read loop is kept waiting for ever exactly when more answers match than the channel and the caller take |
| Calls.AnswersByFields | bluetooth.go:165-179 | an answer to this kind of request, or an error, counts in its place for this address and handle; for another address or handle, and for any other message, nothing changes |
| Calls.BluetoothGATTNotify | bluetooth.go:245-310 | the same, and the data handler stays registered exactly when the device agreed |
| Subscriptions.StateSubscriber.SubscribeStates | client.go:397-430 | every state of every entity reaches one more subscription, and nothing else in the table changes, or, when the request cannot be sent, none; the handler is remembered only in the first case |
| Subscriptions.StateSubscriber.Unsubscribe | client.go:415-422 | exactly the handlers of this subscription are gone; the remembered handler is forgotten, whichever subscription it came from |
| Subscriptions.StateSubscriber.Resubscribe | client.go:577-587 | subscribes once more if a handler is remembered, and removes nothing |
| Subscriptions.StateSubscriber.Reconnects | client.go:577-587 | a client that subscribed has as many more live subscriptions as it had reconnects before the first whose request could not be sent |
| Protobufs.Protobuf.UnderstoodAll | client.go:614-632 | framed messages are understood again, up to types the client does not know |
| Protobufs.Protobuf.UnreadableEnds | client.go:627-629 | after a body of a known type that cannot be read nothing more is dispatched |
| Protobufs.Protobuf.UnknownIsSkipped | client.go:620-624 | a frame of an unknown type is as if it had not been sent |
| Protobufs.Protobuf.ReadableIsOneMessage | client.go:626-631 | any other frame is one message, in its place |
| Protobufs.ProtobufExists | client.go:620-629 | generated code with the assumed behaviour exists for any set of known types |
| ReadLoop.Framer.ReadFrame | framer.go:11-64 | on either transport, for any split of the stream: the first of the frames ahead, or none |
| ReadLoop.RecvMessage | client.go:614-632 | takes one frame from either transport; an unknown type is skipped, a body that cannot be read ends the loop |
| ReadLoop.Loop | client.go:460-491 | on either transport and for any split of the stream, the messages dispatched are those of the frames it holds, in order; table and registry go through the history these messages make together with what others do in between, listings and subscriptions alike |
| ReadLoop.PlainWire | client.go:602-632 | the bytes a device sends on a plain connection hold the messages it sent, up to types this client does not know |
| ReadLoop.SealedWire | transport/noise.go:198-239 | so do the bytes it seals on an encrypted one, from the counter both sides have reached |
| ReadLoop.WireToCache | client.go:460-491 | from the messages a device sent to the cache: the registry holds for an entity what they say about it, whatever other messages came and whatever others did |
| ReadLoop.ServedWhileQuiet | client.go:356-413 | while nobody registers or removes handlers, it is enough for that if they are there when the reading starts |
| ReadLoop.ListingThenStates | client.go:356-413 | a listing followed by states: the entity has the last listing and the later states, each once |
| ReadLoop.LastStateCounts | entities.go:1085-1221 | folding in the states sent leaves the value, and where there is one the missing flag, of the last message for this domain and key |
| ReadLoop.ImageCounts | entities.go:1147-1158 | and for a camera the chunks for this key since the previous done one |
| ReadLoop.BytesToEntity | client.go:460-491 | from the bytes: the cached entity has the fields of its last listing and the states sent after it folded in; it holds the value of the last state sent, or the last image |
| ReadLoop.StatesOnly | client.go:577-587 | with n subscriptions each state reaches the cache n times in a row |
| Lifecycle.MovePassesOwnership | client.go:460-598 | no step copies the ownership of the connection, and only its owner touches the done channel, the framer and the registry |
| Lifecycle.StepKeepsOneOwner | client.go:480-564 | every step of any goroutine keeps at most one read loop before its launch of a reconnect loop or reconnect loop before its launch of a read loop |
| Lifecycle.StepKeepsGenerations | client.go:461-542 | every step keeps each done channel with the one read loop that captured it |
| Lifecycle.StepKeepsRegistry | client.go:486-564 | every step keeps the registry to entries of the owner's connection |
| Lifecycle.RunKeepsInv | client.go:460-598 | the invariant holds along every run of any number of read, reconnect and keepalive loops and Close calls |
| Lifecycle.ExclusiveConnection | client.go:460-598 | in every reachable state at most one goroutine is at a point where it reads or replaces the framer, replaces the done channel, or fills or clears the registry |
| Lifecycle.OnlyUsersChange | client.go:486-564 | only a goroutine at such a point changes any of them |
| Lifecycle.DoneClosedOnce | client.go:461 | each done channel is closed at most once, by the read loop that captured it, even after c.done was replaced |
| Lifecycle.CapturesDiffer | client.go:461 | no two read loops ever hold the same done channel |
| Lifecycle.ReconnectIsolation | client.go:541-564 | while a read loop serves a connection the registry has entries of that connection only, and it starts with none |
| Lifecycle.ConnectedMeansServed | client.go:465-564 | the connected flag is up only while a read loop serves the connection or is about to be launched |
| Service.FailedHandshake | client.go:546-562 | after a handshake that failed the client stays disconnected and nobody reads or is launched to read, in every continuation in which no handshake succeeds |
| Service.FailedDial | client.go:205-214 | after a dial that failed nobody gets as far as a handshake, in every continuation in which no dial succeeds |
| Service.OneReaderPerConnection | client.go:199-216 | no connection is ever read by two read loops |
| Service.SomebodyLooksAfter | client.go:480-564 | until the client is told to stop, in every reachable state a read loop reads its connection or a reconnect loop is about to replace it |
| Service.NeverReconnects | client.go:480-482 | a client that is not to reconnect never has a reconnect loop |
| Service.CloseWorksAgain | client.go:559-562 | once a reconnect has gone through, Close closes the client again |
| Service.SecondClose | client.go:269-271 | a second Close changes nothing |
| Service.KeepaliveOnlyPings | client.go:494-523 | a keepalive loop changes none of the shared flags, and pings only while the client is connected |
| Lifecycle.StaysClosed | client.go:265-282 | without a goroutine that can bring the client back, a closed client stays closed for ever |
| Lifecycle.Revive | client.go:531-562 | with one, there is a run in which it does, although the context is cancelled |
| Lifecycle.CloseIsFinalIff | client.go:265-282 | a Close that is through is final if and only if there is no such goroutine |
| Lifecycle.CloseCanBeUndone | client.go:526-562 | a run in which the connection breaks, the user closes the client, and a later step connects it again |
| Backoff.ReconnectWaits | client.go:526-557 | the k-th wait of the loop is that after k failures, for as long as attempts fail |
| Backoff.ClosedForm | client.go:551-555 | for a base of at most five minutes the wait after k failures is the smaller of base times 2^k and five minutes, and no doubling overflows |
| Backoff.NeverShorterIff | client.go:551-555 | waits never get shorter if and only if the base is at most 300 seconds; the first doubling overflows exactly from 2^62 nanoseconds on |

## Left out

- Writers.ReadBack: every Write call of the step system succeeds. What a failing call leaves on the wire is stated for `CodecIO.WriteFrame`, whose peer may stop at any byte.
- NoiseRuns.Lockstep: here too every Write call succeeds; for failing ones see `NoiseIO.NoiseTransport.WriteFrame`.
- Streams.Stream.Read: returns at least one byte and no error, or none and the error. A reader that returns a byte together with an error, which `codec/codec.go:60-62` drops, or nothing without one, which it takes for the end, is not modelled.
- CodecIO.ReadFrame: always reads single bytes through its own byte reader. The branch for readers that have `ReadByte` themselves (`codec/codec.go:71-74`) is not taken by the client's connections.
- CodecIO.ByteReader.ReadByte: since `Streams.Stream.Read` behaves like that, an empty read without an error and a byte that comes with an error do not reach it.
- Requests.Run: takes a dispatch as one event at the moment of its snapshot, which `Handlers.HandleMessageMeanwhile` justifies for table and registry. A handler of ours that is called after its removal, from a snapshot made before, counts as called before the removal.
- Calls.ListEntities: fills the entity registry only; the registry of services is a smaller copy of it.
- Calls.Collect: fewer than 2^64 handlers are registered over the life of a router, and nobody removes the handlers of another, since only a handler's own removal function knows its id.
- Subscriptions.StateSubscriber.SubscribeStates: nothing else happens between the registrations and the outcome of the request. What the user's handler does with a state is not modelled.
- Registry.EntityRegistry.HandleListEntityMessage: the sixteen entity types are one class with a domain tag, and their sixteen maps one map of maps, since all are handled alike. Fields that are only copied are kept together in one string.
- Registry.Entity.TakeImage: appending makes a new value, so a slice handed out earlier that shares its bytes is not modelled.
- Lifecycle.RunKeepsInv: each step sees one value of the fields that are read without a lock (`c.done`, `c.framer`, `c.reconnectInterval`); data races are not modelled. The steps hold the pointers and flags but not the handler table, and a keepalive ping, or the listing after a reconnect, is one step. A framer that is closed shows only in that the next read may fail, which it may at any time.
- NoiseIO.HandshakeRoundTrip: the Noise library is a message to send and a function from the answer to a pair of ciphers. That both sides derive matching keys, and real cryptography, are not part of this model.
- Dialing, name lookup and deadlines (`transport/dial.go`, `transport/plain.go`): input and output only. A timeout is a choice that may be taken at any time.
- Protobuf encoding: an abstract pair of functions, a round trip for every message that the factory of a known type can build from the wire, and an abstract set of known types.
- The user's own callbacks: what they register and remove is among the actions of others; that they call the registry themselves is not modelled.
- Command builders in `commands.go`, the wrappers in `logs.go` and `services.go`, and the tools under `cmd/`: field copies, thin wrappers and user interface.
- Liveness: that a loop ends, that a timer fires, that no goroutine is left waiting.
