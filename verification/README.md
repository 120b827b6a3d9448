# Protocol Buffers, DTLS and TLS transport of the Positage pods

A Dafny model of four components of the vendored libraries under `Pods`, with proofs.

**nanopb** (`Pb*.dfy`). Descriptor tables, message structs, the wire format, the encoder
with its sizing pass, the decoder with its substreams, its wrap-around field iterator,
its required-field bits and its fixed-count runs. `PbEncodeSpec` and `PbDecodeSpec` say
what is written and read; `PbEncoder`, `PbDecoder`, `PbIter` and `PbBits` are the stream,
iterator and bit-word objects proved against them; `PbRoundTrip`, `PbCanonical`,
`PbMerge` and `PbPresence` hold the theorems: exactly when and what the decoder gives
back, concatenation as merging, unknown fields, presence checks. `PbSafety` shows that
what is decoded from any bytes fits its members, `PbSkip` that what is written can be
skipped, and `PbEndToEnd` joins the objects to the round trip.

**DTLS handshake transport** (`Dtls*.dfy`). Fragments on the wire, reassembly with a
byte bitmask, the ring of buffers, the outgoing flight cut to the MTU, the replay
window. `DtlsReceiveSpec` and `DtlsSendSpec` are the specifications, `DtlsReassembly`,
`DtlsReceiver`, `DtlsSender` and `DtlsReplay` the objects; `DtlsDelivery`,
`DtlsLiveness` and `DtlsEndToEnd` prove delivery over every run and every network: only
what was sent and in order, and all of it once it has arrived. `DtlsFrames` and
`DtlsRecordWriter` are the records and the object that numbers them.

**TLS write and read path** (`Tls*.dfy`). The record buffer over a non-blocking
transport, the pending flight, application data with its retry memo, alerts; wire order
and exactly-once delivery; message extraction on the reading side.

**TLS 1.0 to 1.2 handshake** (`Handshake*.dfy`, `ClientHandshake.dfy`,
`ServerHandshake.dfy`, `CipherChoice.dfy`, `RsaPadding.dfy`). `HandshakeFlow` has the
message flow of the standards as one list. `HandshakeClient` and `HandshakeServer` have
one function for each state and show that each machine is that list, taken from its own
end; `HandshakeRun` runs the two against each other under every schedule.
`HandshakePeer`, `HandshakeClientSafety` and `HandshakeServerSafety` run each of them
against any peer.
`ClientHandshake` and `ServerHandshake` are the `do_*` functions and their drivers on the
handshake object, each a run of the model.

`Words.dfy` has the machine-word arithmetic that these share, `Wrappers.dfy` the option
type.

How the models are set up:

- Bytes are integers from 0 to 255 with bitwise operations defined on their bits; sizes
  are unbounded except where the source's width matters: the 8-bit shift counter of the
  32-bit varint reader, 16-bit sequence numbers and epochs, the 64-bit replay window, the
  16-bit counters of the record buffer. Lengths stay below 2^64 and encodings below
  2^63, as on a 64-bit machine.
- Clocks, randomness, ciphers, callbacks and the transport are parameters or arbitrary
  choices. A cipher may fail at any time and adds at most its stated overhead; a write
  may be short or fail; a callback may ask to be called again. Ghost counters record how
  often a cipher failed or a transport refused, so that the contracts can say when a call
  must succeed.
- nanopb is the configuration with 32-bit field descriptors, 64-bit integers, static
  allocation, no callbacks and no extensions. In a descriptor the submessage table is
  always there, and the size address inside a oneof is the one of its first member.
- The flight length of DTLS is 7, as the source defines it; nothing depends on its value
  beyond its being positive.

Where the code turned out to differ from what one would expect of it:

- The round trip of nanopb fails for a string that fills its buffer, which the encoder
  writes and the decoder refuses (`PbCanonical.UnterminatedString`), and for length
  prefixes of 2^32 and more. `PbRoundTrip.MsgRoundTrip` says exactly when it holds.
- On an empty descriptor table the field search stops at the terminator and takes a zero
  tag for found; the model does the same.
- The two range checks on DTLS sequence numbers differ by one, so that an honest fragment
  exactly one past the window is answered by an alert (`DtlsDelivery.HonestAlert`).
- When sealing fails in the middle of a packet, the flight position has already moved
  past the records that were sealed for it, and the packet is never written
  (`DtlsSendSpec.FailedSealLosesMessage`). The packets tile the flight exactly when no
  such record was lost (`DtlsSendSpec.TiledExactly`); a retransmission starts afresh.
- The offset of the record buffer is 16 bits wide while its capacity may be 65535 with up
  to 7 bytes of alignment in front. A partial write that carries it past 65535 makes the
  buffer show the wrong bytes (`TlsBuffer.FullBufferBreaks`). Draining keeps the order
  exactly when the contents end within 16 bits (`TlsBuffer.FlushExact`). `ordered` records
  that they always did; it stays true through every operation that asks for no more
  than 65529 bytes with the unsent flight.
- `ssl3_write_app_data` resets its progress counter before it checks the length, so a
  retry that is shorter than the progress makes it seal bytes twice
  (`TlsWriter.ShortRetryRepeats`). `TlsWriter.Writer.WriteAppData` says exactly when a
  write is sealed once.

## Model

| member | source | states |
|---|---|---|
| PbWire.VarintRoundTrip | Positage/Pods/nanopb/pb_encode.c:574-594 | every 64-bit value is written in at most ten bytes, and pb_decode_varint gives it back and stops right behind it |
| PbWire.Varint32Exact | Positage/Pods/nanopb/pb_decode.c:182-242 | on the encoding of a value below 2^63 the 32-bit reader succeeds exactly when the value is below 2^32, and then returns it |
| PbWire.Varint32Negative | Positage/Pods/nanopb/pb_decode.c:182-242 | on the ten-byte encoding of a sign-extended negative 32-bit value the 32-bit reader succeeds and returns the low 32 bits |
| PbKeys.ZigZagBijection | Positage/Pods/nanopb/pb_decode.c:1240-1252 | zigzag maps the signed 64-bit range onto the unsigned one and the decoder undoes it, both ways |
| PbKeys.LeRoundTrip | Positage/Pods/nanopb/pb_decode.c:1254-1286 | a fixed-width word written low byte first is read back |
| PbKeys.LowByteFirst | Positage/Pods/nanopb/pb_encode.c:607-633 | byte i of a fixed-width word is the one that counts 256 to the i |
| PbKeys.LeInverse | Positage/Pods/nanopb/pb_decode.c:1254-1286 | every sequence of bytes is the word it is read as |
| PbKeys.KeyRoundTrip | Positage/Pods/nanopb/pb_encode.c:635-639 | a record key is read back as the same field number and wire type |
| PbKeys.StringRoundTrip | Positage/Pods/nanopb/pb_encode.c:674-680 | a length-delimited string is read back and nothing behind it is touched |
| PbKeys.SkipExtends | Positage/Pods/nanopb/pb_decode.c:316-326 | skipping a value consumes the same bytes whatever follows it |
| PbKeys.DecKeyExtends | Positage/Pods/nanopb/pb_decode.c:293-314 | reading a key does not depend on what follows it |
| PbRoundTrip.NumRoundTrip | Positage/Pods/nanopb/pb_decode.c:1289-1389 | every number in the range of its field type is encoded, and decoded to itself |
| PbRoundTrip.BlobRoundTrip | Positage/Pods/nanopb/pb_decode.c:1391-1461 | bytes, fixed-length bytes and strings come back; a string does exactly when it leaves room for its terminator |
| PbRoundTrip.PackedRoundTrip | Positage/Pods/nanopb/pb_decode.c:419-448 | a packed array is decoded to the elements that were encoded, for packed arrays of any element type |
| PbRoundTrip.ArrayRoundTrip | Positage/Pods/nanopb/pb_decode.c:419-459 | an array, packed or not, counted or fixed-count, comes back element for element behind whatever was decoded before |
| PbRoundTrip.FieldRoundTrip | Positage/Pods/nanopb/pb_decode.c:401-475 | one field of any kind is decoded into its own slot and leaves every other slot alone |
| PbRoundTrip.MsgEncodes | Positage/Pods/nanopb/pb_encode.c:494-516 | every struct of the type of a well-formed descriptor is encoded |
| PbRoundTrip.MsgRoundTrip | Positage/Pods/nanopb/pb_decode.c:1051-1063 | for every well-formed nested descriptor and every struct, pb_decode on the output of pb_encode succeeds exactly when each written string leaves room for its terminator and each length prefix fits in 32 bits; it then consumes everything and yields the struct with absent optionals at their defaults |
| PbCanonical.CanonBytes | Positage/Pods/nanopb/pb_encode.c:307-392 | what the round trip does not bring back is never written: a struct and its canonical form have the same bytes |
| PbCanonical.EncodingInjective | Positage/Pods/nanopb/pb_encode.c:494-516 | two canonical structs with the same encoding are equal |
| PbCanonical.UnterminatedString | Positage/Pods/nanopb/pb_decode.c:1428-1461 | a string that fills its buffer is encoded by the encoder and refused by the decoder |
| PbSafety.DecodedIsTyped | Positage/Pods/nanopb/pb_decode.c:901-1049 | for every byte sequence, a struct of the type of the descriptor is decoded into one: every number is in the range of its member, every array within its size, bytes and strings within theirs |
| PbSafety.DecodedIsTerminated | Positage/Pods/nanopb/pb_decode.c:1428-1461 | and every string that is decoded is shorter than its member |
| PbSafety.BlobFits | Positage/Pods/nanopb/pb_decode.c:1391-1508 | bytes, strings and fixed-length bytes are stored exactly when they fit, a string with its terminator |
| PbSafety.VarintMeans | Positage/Pods/nanopb/pb_decode.c:1289-1389 | any varint in the place of a number is the number that it is congruent to in the width of the member, or that zigzag makes of it, and is refused exactly when that is out of range |
| PbSafety.DefaultOmitted | Positage/Pods/nanopb/pb_encode.c:215-303 | a proto3 field that holds its default is not written |
| PbSafety.AbsentKeepsDefault | Positage/Pods/nanopb/pb_decode.c:812-899 | an optional field that does not occur has the default of the table |
| PbSkip.WireTypes | Positage/Pods/nanopb/pb_encode.c:641-672 | the wire types are 0 for varints, 1 and 5 for words of 8 and 4 bytes, and 2 for what has a length prefix |
| PbSkip.ValueSkipped | Positage/Pods/nanopb/pb_decode.c:316-326 | skipping by the wire type of its field consumes exactly the value that was written, if its length prefix fits in 32 bits, and is refused otherwise |
| PbSkip.UnknownMessageInvisible | Positage/Pods/nanopb/pb_decode.c:933-962 | a message decoded with a descriptor that shares no tag with its own changes nothing and is used up; it is refused exactly when a length prefix does not fit in 32 bits or the descriptor requires a field |
| PbSkip.OneHundredAndFifty | Positage/Pods/nanopb/pb_encode.c:635-672 | an int32 with tag 1 and value 150 is written as 08 96 01 |
| PbMerge.LoopAppend | Positage/Pods/nanopb/pb_decode.c:919-997 | the decoding loop on a concatenation is the loop on the parts, for every descriptor and every state it starts in |
| PbMerge.ConcatenationMerges | Positage/Pods/nanopb/pb_decode.c:919-997 | without required and fixed-count fields, decoding a + b into a struct is decoding b into the result of decoding a into it |
| PbMerge.DecRecordExtends | Positage/Pods/nanopb/pb_decode.c:933-996 | decoding one record does not look past it |
| PbMerge.UnknownFieldInvisible | Positage/Pods/nanopb/pb_decode.c:933-962 | a record whose number the descriptor does not have, put between two records, changes neither the struct nor the success |
| PbMerge.UnknownRecords | Positage/Pods/nanopb/pb_decode.c:316-326 | varint, 64-bit, 32-bit and length-delimited records under an unknown number are such records |
| PbPresence.PresenceExact | Positage/Pods/nanopb/pb_decode.c:964-1046 | pb_decode_noinit succeeds exactly when all single fields decode, each of the first 64 required fields occurs, and each run of a fixed-count array delivers exactly array_size elements |
| PbPresence.LoopRuns | Positage/Pods/nanopb/pb_decode.c:964-997 | the loop breaks off on an incomplete run exactly when the sequence of field occurrences holds one |
| PbPresence.LoopSeen | Positage/Pods/nanopb/pb_decode.c:988-993 | the set of seen required fields is the set of required indices that occur |
| PbBits.SetMember | Positage/Pods/nanopb/pb_decode.c:988-993 | or-ing a bit into the 32-bit words adds exactly that member |
| PbBits.WordTestExact | Positage/Pods/nanopb/pb_decode.c:1027-1045 | the test by whole words and remainder holds exactly when all required indices are members |
| PbIter.FieldIter.constructor | Positage/Pods/nanopb/pb_common.c:8-18 | the cursor starts on the first entry with its derived values |
| PbIter.FieldIter.Next | Positage/Pods/nanopb/pb_common.c:20-76 | a step moves to the next entry or wraps, and keeps the data address, the size address and the required index equal to the values computed from the position |
| PbIter.FieldIter.Find | Positage/Pods/nanopb/pb_common.c:78-95 | the search from any position terminates, finds the tag exactly when an entry has it, and else comes back to its start |
| PbIter.UnionSharesAddress | Positage/Pods/nanopb/pb_common.c:44-50 | all members of a oneof are at the address of its first member |
| PbIter.SlotsInOrder | Positage/Pods/nanopb/pb_common.c:51-73 | no two slots overlap: what the last entry of a slot stores ends before any later entry begins, in a union or not |
| PbIter.ElementsInOrder | Positage/Pods/nanopb/pb_common.c:51-73 | no element of an array reaches the next entry |
| PbIter.FoundIsUnique | Positage/Pods/nanopb/pb_common.c:78-95 | with distinct tags the entry found does not depend on where the search began |
| PbEncoder.OStream.BufWrite | Positage/Pods/nanopb/pb_encode.c:72-82 | the buffer callback stores the bytes at the cursor and nothing else |
| PbEncoder.OStream.Write | Positage/Pods/nanopb/pb_encode.c:101-119 | a write appends all of its bytes or, when they do not fit, fails; a sizing stream only counts |
| PbEncoder.FillVarint | Positage/Pods/nanopb/pb_encode.c:574-594 | the buffer is filled with at most ten bytes, those of the varint |
| PbEncoder.OStream.EncodeVarint | Positage/Pods/nanopb/pb_encode.c:574-594 | writes the varint of the value |
| PbEncoder.OStream.EncodeTag | Positage/Pods/nanopb/pb_encode.c:635-639 | writes the key of field number and wire type |
| PbEncoder.OStream.EncodeString | Positage/Pods/nanopb/pb_encode.c:674-680 | writes a length prefix and the bytes |
| PbEncoder.OStream.EncodeNum | Positage/Pods/nanopb/pb_encode.c:734-808 | writes a number in the encoding of its field type |
| PbEncoder.OStream.EncodeBlob | Positage/Pods/nanopb/pb_encode.c:810-868 | bytes that exceed their field are refused, a string is written up to its NUL or the end of its field, found by the scan, and fixed-length bytes are written whole |
| PbEncoder.StringLength | Positage/Pods/nanopb/pb_encode.c:833-852 | the scan finds the C string in the memory of the field |
| PbEncoder.OStream.EncodeSubmessage | Positage/Pods/nanopb/pb_encode.c:682-730 | the pass that sizes and the pass that writes agree: the submessage is written behind its exact length |
| PbEncoder.OStream.WriteWindow | Positage/Pods/nanopb/pb_encode.c:705-729 | the inner stream that is limited to the size of the first pass writes the submessage |
| PbEncoder.OStream.EncodeRecord | Positage/Pods/nanopb/pb_encode.c:352-385 | one key, with the number of the field and the wire type of its value, and the value |
| PbEncoder.OStream.PackedSize | Positage/Pods/nanopb/pb_encode.c:145-165 | the size pass over a packed array gives the number of bytes that the writing pass writes |
| PbEncoder.OStream.EncodePackedString | Positage/Pods/nanopb/pb_encode.c:142-180 | the packed elements behind their length |
| PbEncoder.OStream.EncodeArray | Positage/Pods/nanopb/pb_encode.c:126-211 | an array is written packed or record by record, and more elements than the array holds are refused |
| PbEncoder.OStream.EncodeBasicField | Positage/Pods/nanopb/pb_encode.c:307-392 | a field of any kind is written when it is present: required, optional, proto3 singular, array or selected member of a oneof |
| PbEncoder.OStream.Encode | Positage/Pods/nanopb/pb_encode.c:494-516 | the message is written field by field |
| PbEncoder.CheckProto3DefaultValue | Positage/Pods/nanopb/pb_encode.c:215-303 | a proto3 value counts as default exactly when it is zero, through all submessages |
| PbEncoder.CheckProto3DefaultSlot | Positage/Pods/nanopb/pb_encode.c:220-239 | a field of a proto3 submessage is default when it is absent, empty, unselected or zero |
| PbEncoder.GetEncodedSize | Positage/Pods/nanopb/pb_encode.c:533-542 | succeeds exactly when the message can be encoded and returns the length of its encoding |
| PbEncoder.EncodeToBuffer | Positage/Pods/nanopb/pb_encode.c:84-99 | encoding succeeds exactly in buffers of at least that size, writes exactly that many bytes, and never reports that a submessage changed its size |
| PbEndToEnd.MsgIsSized | Positage/Pods/nanopb/pb_encode.c:682-730 | in a typed struct whose encoding size_t can count, every length prefix that is written can be counted too |
| PbEndToEnd.EncodeThenDecode | Positage/Pods/nanopb/pb_decode.c:1051-1063 | the two stream objects together: encoding succeeds exactly in a buffer that is large enough, and decoding it gives the struct back, in canonical form, exactly when it is decodable |
| PbDecoder.IStream.Read | Positage/Pods/nanopb/pb_decode.c:100-132 | reads the asked number of bytes, or fails |
| PbDecoder.IStream.DecodeVarint32Eof | Positage/Pods/nanopb/pb_decode.c:182-242 | reads a 32-bit varint with the wrapping shift counter of the source and reports the end of the stream |
| PbDecoder.IStream.DecodeMultibyte32 | Positage/Pods/nanopb/pb_decode.c:203-236 | the loop over the further bytes, with its overflow and sign-extension tests |
| PbDecoder.IStream.DecodeVarint | Positage/Pods/nanopb/pb_decode.c:250-270 | reads a 64-bit varint |
| PbDecoder.IStream.SkipVarintBytes | Positage/Pods/nanopb/pb_decode.c:273-282 | skips a varint of any length |
| PbDecoder.IStream.DecodeTag | Positage/Pods/nanopb/pb_decode.c:293-314 | reads a key; a zero key or the end of the stream ends the message without an error |
| PbDecoder.IStream.MakeStringSubstream | Positage/Pods/nanopb/pb_decode.c:367-380 | the substream is exactly the delimited bytes and the outer stream continues behind them |
| PbDecoder.IStream.CloseStringSubstream | Positage/Pods/nanopb/pb_decode.c:382-395 | closing a substream leaves the outer stream behind it, read or not |
| PbDecoder.IStream.SkipField | Positage/Pods/nanopb/pb_decode.c:316-326 | skips exactly what the wire type says |
| PbDecoder.IStream.Clamp | Positage/Pods/nanopb/pb_decode.c:1289-1372 | a number is accepted exactly when it fits the size of its field |
| PbDecoder.CastKeeps | Positage/Pods/nanopb/pb_decode.c:1302-1325 | the comparison after the narrowing cast detects exactly the numbers out of range |
| PbDecoder.IStream.DecodeNum | Positage/Pods/nanopb/pb_decode.c:1289-1389 | decodes a number of any packable type |
| PbDecoder.IStream.DecodeBlob | Positage/Pods/nanopb/pb_decode.c:1391-1508 | decodes bytes, strings and fixed-length bytes, and refuses exactly what does not fit |
| PbDecoder.IStream.DecodeSubmessage | Positage/Pods/nanopb/pb_decode.c:1463-1485 | decodes a submessage from its substream, into defaults for array elements and oneofs and into the old value otherwise |
| PbDecoder.IStream.DecodePackedItems | Positage/Pods/nanopb/pb_decode.c:431-440 | decodes packed elements until the substream or the array is full |
| PbDecoder.IStream.DecodeArray | Positage/Pods/nanopb/pb_decode.c:419-459 | decodes one array record, packed or not |
| PbDecoder.IStream.DecodeStaticField | Positage/Pods/nanopb/pb_decode.c:401-475 | decodes one record into its slot, and keeps the count of a fixed-count run |
| PbDecoder.IStream.DecodeRecord | Positage/Pods/nanopb/pb_decode.c:933-996 | one turn of the loop: finds the field from where the cursor is, or skips it; keeps the run and the seen bits |
| PbDecoder.IStream.DecodeLoop | Positage/Pods/nanopb/pb_decode.c:919-997 | all records of the message |
| PbDecoder.MarkSeen | Positage/Pods/nanopb/pb_decode.c:988-993 | sets the bit of a required field in the two 32-bit words |
| PbDecoder.CheckRequired | Positage/Pods/nanopb/pb_decode.c:1006-1046 | counts the required fields by walking the table, and passes exactly when the first 64 of them were seen |
| PbDecoder.TestWords | Positage/Pods/nanopb/pb_decode.c:1027-1045 | the loop over whole words and the masked rest |
| PbDecoder.IStream.DecodeNoinit | Positage/Pods/nanopb/pb_decode.c:901-1049 | decodes into a given struct, with the checks at the end |
| PbDecoder.IStream.Decode | Positage/Pods/nanopb/pb_decode.c:1051-1063 | decodes into a struct of defaults; what comes out is of the type of the descriptor, its strings terminated within their members |
| DtlsFragment.FragmentRoundTrip | Positage/Pods/BoringSSL-GRPC/ssl/d1_both.cc:459-473 | a fragment that was written is parsed back, with the bytes behind it left over |
| DtlsFragment.FragmentInverse | Positage/Pods/BoringSSL-GRPC/ssl/d1_both.cc:459-473 | what is parsed is what the writer would have written |
| DtlsFragment.HighByteFirst | Positage/Pods/BoringSSL-GRPC/ssl/d1_both.cc:459-473 | header numbers go with the high byte first |
| DtlsReassembly.BitRange | Positage/Pods/BoringSSL-GRPC/ssl/d1_both.cc:203-205 | the byte has exactly the bits of the range set |
| DtlsReassembly.OrAt | Positage/Pods/BoringSSL-GRPC/ssl/d1_both.cc:227-235 | or-ing a partial byte into the mask adds exactly its bytes of the message |
| DtlsReassembly.FillAt | Positage/Pods/BoringSSL-GRPC/ssl/d1_both.cc:230-232 | storing 0xff adds exactly the eight bytes it stands for |
| DtlsReassembly.FullByte | Positage/Pods/BoringSSL-GRPC/ssl/d1_both.cc:239-243 | a mask byte is 0xff exactly when its eight message bytes have arrived |
| DtlsReassembly.LastByte | Positage/Pods/BoringSSL-GRPC/ssl/d1_both.cc:244-247 | the last, partial mask byte is complete exactly when the bytes up to the end have arrived |
| DtlsReassembly.HmFragment.constructor | Positage/Pods/BoringSSL-GRPC/ssl/d1_both.cc:152-199 | a new buffer has the header of the whole message, no byte marked, and no mask when the message is empty |
| DtlsReassembly.HmFragment.Mark | Positage/Pods/BoringSSL-GRPC/ssl/d1_both.cc:211-251 | after marking, the arrived bytes are the old ones and the range; the mask shows exactly them and is released exactly when they are the whole message |
| DtlsReassembly.HmFragment.MarkAcross | Positage/Pods/BoringSSL-GRPC/ssl/d1_both.cc:229-235 | the same for a range over several mask bytes, with its partial ends |
| DtlsReassembly.HmFragment.IsComplete | Positage/Pods/BoringSSL-GRPC/ssl/d1_both.cc:238-250 | the check over the mask finds exactly a complete message, for lengths that are no multiple of eight too |
| DtlsReassembly.HmFragment.Absorb | Positage/Pods/BoringSSL-GRPC/ssl/d1_both.cc:399-402 | the body is copied to its offset, no other byte changes, and its range is marked |
| DtlsReceiveSpec.SlotIsOurs | Positage/Pods/BoringSSL-GRPC/ssl/d1_both.cc:272-276 | what is in the ring slot of a number in the window is the message with that number |
| DtlsReceiveSpec.IncomingKeepsRing | Positage/Pods/BoringSSL-GRPC/ssl/d1_both.cc:265-295 | finding or making a buffer keeps every slot in the window and at its index |
| DtlsReceiver.Receiver.GetIncomingMessage | Positage/Pods/BoringSSL-GRPC/ssl/d1_both.cc:265-295 | finds, makes or refuses a buffer, with the alert of the source |
| DtlsReceiver.Receiver.OpenFragment | Positage/Pods/BoringSSL-GRPC/ssl/d1_both.cc:352-403 | one fragment is checked, ignored, refused or stored, in the order of the source, and the ring stays well formed |
| DtlsReceiver.Receiver.OpenHandshake | Positage/Pods/BoringSSL-GRPC/ssl/d1_both.cc:297-406 | a record of each type has the effect and the result of the specification, for well-formed and malformed contents |
| DtlsReceiver.Receiver.GetMessage | Positage/Pods/BoringSSL-GRPC/ssl/d1_both.cc:408-424 | hands out the current message exactly when it is complete |
| DtlsReceiver.Receiver.NextMessage | Positage/Pods/BoringSSL-GRPC/ssl/d1_both.cc:426-438 | frees the slot and moves the window, with the 16-bit counter |
| DtlsReceiver.Receiver.OpenChangeCipherSpec | Positage/Pods/BoringSSL-GRPC/ssl/d1_both.cc:475-494 | a ChangeCipherSpec that has arrived, now or before, is taken once |
| DtlsReceiver.Receiver.HasUnprocessed | Positage/Pods/BoringSSL-GRPC/ssl/d1_both.cc:440-457 | reports exactly a pending ChangeCipherSpec or a buffer other than the current message |
| DtlsReceiver.Receiver.SetReadState | Positage/Pods/BoringSSL-GRPC/ssl/dtls_method.cc:81-95 | the read epoch changes exactly when nothing is unprocessed |
| DtlsDelivery.OpenOneFollows | Positage/Pods/BoringSSL-GRPC/ssl/d1_both.cc:352-403 | a genuine fragment leaves every buffered byte equal to the byte of the sender |
| DtlsDelivery.DeliveredIsPrefix | Positage/Pods/BoringSSL-GRPC/ssl/d1_both.cc:297-438 | over every run of arrivals, polls and epoch changes, with fewer than 2^16 messages, the messages handed out are a prefix of the sender's, byte for byte |
| DtlsDelivery.HonestAlert | Positage/Pods/BoringSSL-GRPC/ssl/d1_both.cc:380-390 | the two range checks together: an honest fragment is answered by an alert exactly when its number is read_seq + FLIGHT, and in epoch 1 exactly when it is not read_seq |
| DtlsDelivery.RefusedExactly | Positage/Pods/BoringSSL-GRPC/ssl/d1_both.cc:352-390 | whatever the fragment, the reasons to answer it with an alert are listed exactly, and it then changes nothing |
| DtlsDelivery.RunWithin | Positage/Pods/BoringSSL-GRPC/ssl/d1_both.cc:297-494 | whatever arrives, every buffer is of a message of admitted length, and a ChangeCipherSpec that has arrived is kept, with the read epoch, until it is taken |
| DtlsDelivery.CcsNoted | Positage/Pods/BoringSSL-GRPC/ssl/d1_both.cc:318-336 | a ChangeCipherSpec is noted exactly when it is the byte 1 and the read cipher is not on |
| DtlsDelivery.OpenAllCollects | Positage/Pods/BoringSSL-GRPC/ssl/d1_both.cc:393-402 | fragments in any order, with repetitions and overlaps, collect into the union of their ranges |
| DtlsDelivery.DeliveredWhenCovered | Positage/Pods/BoringSSL-GRPC/ssl/d1_both.cc:408-438 | the next message is handed out exactly when what was there before and what has arrived since cover it |
| DtlsDelivery.TakesArrived | Positage/Pods/BoringSSL-GRPC/ssl/d1_both.cc:408-438 | polling hands out all messages that are complete, in order |
| DtlsLiveness.OpenOneHolds | Positage/Pods/BoringSSL-GRPC/ssl/d1_both.cc:352-403 | a fragment in the window is held from then on, and so is all that was held before |
| DtlsLiveness.RunHolds | Positage/Pods/BoringSSL-GRPC/ssl/d1_both.cc:297-438 | a fragment that arrives once, wherever in a run of arrivals and polls, is held at its end |
| DtlsLiveness.RunDelivered | Positage/Pods/BoringSSL-GRPC/ssl/d1_both.cc:297-438 | when the fragments that arrived in a run, from any sendings and cut in any way, cover the messages up to some number, polling hands out all of them in order |
| DtlsDelivery.RecordIsOpenAll | Positage/Pods/BoringSSL-GRPC/ssl/d1_both.cc:350-405 | a record of welcome fragments is opened whole |
| DtlsReplay.SlideShows | Positage/Pods/BoringSSL-GRPC/ssl/dtls_record.cc:161-169 | sliding the window keeps what it says about every number that is still inside |
| DtlsReplay.MarkShows | Positage/Pods/BoringSSL-GRPC/ssl/dtls_record.cc:171-174 | setting a bit adds exactly that number |
| DtlsReplay.Bitmap.ShouldDiscard | Positage/Pods/BoringSSL-GRPC/ssl/dtls_record.cc:140-150 | discards exactly the numbers that were recorded and those 64 or more below the highest |
| DtlsReplay.Bitmap.Record | Positage/Pods/BoringSSL-GRPC/ssl/dtls_record.cc:155-175 | records exactly that number, stale or not |
| DtlsReplay.Bitmap.Reset | Positage/Pods/BoringSSL-GRPC/ssl/dtls_method.cc:89-91 | an epoch starts with nothing recorded |
| DtlsReplay.RecordReader.OpenRecord | Positage/Pods/BoringSSL-GRPC/ssl/dtls_record.cc:177-272 | no record number is ever accepted twice; what becomes of every input is given, with the reasons to drop a record, and exactly the record is consumed, or the whole input when its header is malformed |
| DtlsReplay.RecordReader.OpenDatagram | Positage/Pods/BoringSSL-GRPC/ssl/dtls_record.cc:177-272 | the records of a datagram are opened one after the other; when their numbers are fresh and the cipher accepts them, all are handed out, in order |
| DtlsReplay.FreshAllOpened | Positage/Pods/BoringSSL-GRPC/ssl/dtls_record.cc:225-259 | records with fresh numbers are all accepted |
| DtlsReplay.RisingIsFresh | Positage/Pods/BoringSSL-GRPC/ssl/dtls_record.cc:225-259 | numbers that go up from above all that were seen are fresh |
| DtlsFrames.FrameReadBack | Positage/Pods/BoringSSL-GRPC/ssl/dtls_record.cc:194-201 | a record that was written is read back field by field, and nothing behind it is touched |
| DtlsFrames.SeqNumInjective | Positage/Pods/BoringSSL-GRPC/ssl/dtls_record.cc:140-150 | distinct header bytes are distinct record numbers |
| DtlsRecordWriter.SequenceUpdate | Positage/Pods/BoringSSL-GRPC/ssl/tls_record.cc:154-163 | one is added to the sequence, in place, and it fails exactly when that runs over |
| DtlsRecordWriter.RecordWriter.SealRecord | Positage/Pods/BoringSSL-GRPC/ssl/dtls_record.cc:297-354 | the record has the next number of its epoch in its header; no number is used twice until a sequence of 48 bits has run out |
| DtlsRecordWriter.RecordWriter.SetWriteState | Positage/Pods/BoringSSL-GRPC/ssl/dtls_method.cc:97-107 | the sequence of the old epoch is kept and the new one starts at zero |
| DtlsReplay.RecordReader.SetReadState | Positage/Pods/BoringSSL-GRPC/ssl/dtls_method.cc:81-95 | a new epoch keeps the record of everything accepted before |
| DtlsSendSpec.WalkConserves | Positage/Pods/BoringSSL-GRPC/ssl/d1_both.cc:667-733 | records that are the next pieces one after the other carry exactly the bytes between the two positions |
| DtlsSendSpec.FlightTiled | Positage/Pods/BoringSSL-GRPC/ssl/d1_both.cc:739-827 | a flight sent from start to end carries its messages exactly: no gap, no overlap, in order |
| DtlsSendSpec.LostBytes | Positage/Pods/BoringSSL-GRPC/ssl/d1_both.cc:782-827 | packets carry the bytes between two positions exactly when the records lost in between held none |
| DtlsSendSpec.TiledExactly | Positage/Pods/BoringSSL-GRPC/ssl/d1_both.cc:739-827 | however many calls and failures there were, the packets tile the flight up to its position exactly when no record was lost |
| DtlsSendSpec.FailedSealLosesMessage | Positage/Pods/BoringSSL-GRPC/ssl/d1_both.cc:757-768 | a flight of two messages whose second seal fails: the position passes the first message, and no packet carries it |
| DtlsSender.NextPiece | Positage/Pods/BoringSSL-GRPC/ssl/d1_both.cc:697-733 | a fragment cut at the position is the next piece and leads to the next position |
| DtlsSender.Sender.AddOutgoing | Positage/Pods/BoringSSL-GRPC/ssl/d1_both.cc:555-594 | a message joins the flight, a finished flight is discarded first, and a full flight refuses |
| DtlsSender.Sender.BuildMessage | Positage/Pods/BoringSSL-GRPC/ssl/d1_both.cc:511-537 | the peer parses what is built as one whole fragment of the message with the next number; only a body of 2^24 bytes or more is refused |
| DtlsSender.Sender.FinishMessage | Positage/Pods/BoringSSL-GRPC/ssl/d1_both.cc:526-537 | the fragment length is copied over the message length in place, and no other byte changes |
| DtlsSender.FinishedIsWhole | Positage/Pods/BoringSSL-GRPC/ssl/d1_both.cc:511-537 | with the length filled in, the message is one whole fragment |
| DtlsSender.Sender.AddChangeCipherSpec | Positage/Pods/BoringSSL-GRPC/ssl/d1_both.cc:600-603 | a ChangeCipherSpec joins the flight under no number |
| DtlsSender.Sender.AddMessage | Positage/Pods/BoringSSL-GRPC/ssl/d1_both.cc:596-598 | the message joins the history under its number, and the flight keeps consisting of messages of the history |
| DtlsSender.Sender.SetWriteState | Positage/Pods/BoringSSL-GRPC/ssl/dtls_method.cc:97-107 | the write epoch moves on and keeps the previous cipher |
| DtlsSender.Sender.SealNextMessage | Positage/Pods/BoringSSL-GRPC/ssl/d1_both.cc:644-734 | seals the next piece, which fills the room given or completes the message, or changes nothing; it fails exactly without a cipher, for a malformed message or when the cipher fails, and makes no progress exactly when the room is too small |
| DtlsSender.Sender.SealNextPacket | Positage/Pods/BoringSSL-GRPC/ssl/d1_both.cc:739-780 | a packet fits the MTU, takes records while there is room, and the position moves past exactly its records; the reasons to fail are exact |
| DtlsSender.Sender.SendFlight | Positage/Pods/BoringSSL-GRPC/ssl/d1_both.cc:782-827 | terminates; the accepted packets carry the flight on from where it stood, each within the MTU; a refused packet is taken back; after a failed seal the packets carry the bytes up to the position exactly when the abandoned records held none; it stops only at the end or when cipher, transport or MTU stop it; everything sent enters the log of honest sendings |
| DtlsSender.Sender.FlushFlight | Positage/Pods/BoringSSL-GRPC/ssl/d1_both.cc:829-834 | the flight is closed and sent on from its position, all of it when nothing is in the way; what was sent and what a failed seal lost account for the new position |
| DtlsSender.Sender.Retransmit | Positage/Pods/BoringSSL-GRPC/ssl/d1_both.cc:836-845 | the flight is sent again from its start, all of it when nothing is in the way, and only what was sent and lost since counts |
| DtlsEndToEnd.PieceGenuine | Positage/Pods/BoringSSL-GRPC/ssl/d1_both.cc:687-733 | every sealed piece of a queued message is a genuine fragment of the sender's history |
| DtlsEndToEnd.SentIsGenuine | Positage/Pods/BoringSSL-GRPC/ssl/d1_both.cc:739-827 | so is every handshake record of any stretch of sending |
| DtlsEndToEnd.EndToEnd | Positage/Pods/BoringSSL-GRPC/ssl/d1_both.cc:297-438 | for all flights, MTUs, failed writes and retransmissions and every network that drops, repeats and reorders, the receiver hands out a prefix of the sender's messages |
| DtlsEndToEnd.SenderToReceiver | Positage/Pods/BoringSSL-GRPC/ssl/d1_both.cc:782-827 | the same for the sender object, from its log: whatever was done with it and whatever the network does, the receiver hands out a prefix of the messages added to it |
| DtlsEndToEnd.FlightOfSender | Positage/Pods/BoringSSL-GRPC/ssl/d1_both.cc:782-827 | a sender object at the end of its flight has sent a complete honest flight exactly when no record was lost |
| DtlsEndToEnd.FlightArrives | Positage/Pods/BoringSSL-GRPC/ssl/d1_both.cc:739-827 | when each fragment of a fully sent flight arrives at least once, in any order among others and whatever was there before, polling hands out all of its messages that are missing, in order |
| DtlsEndToEnd.FlightDelivered | Positage/Pods/BoringSSL-GRPC/ssl/d1_both.cc:297-438 | the same when arrivals and polls alternate in any way |
| TlsBuffer.Transport.Write | Positage/Pods/BoringSSL-GRPC/ssl/ssl_buffer.cc:239-252 | a write takes a prefix of what it is given, or fails |
| TlsBuffer.SSLBuffer.EnsureCap | Positage/Pods/BoringSSL-GRPC/ssl/ssl_buffer.cc:47-81 | makes room up to 16 bits without changing the contents |
| TlsBuffer.SSLBuffer.Append | Positage/Pods/BoringSSL-GRPC/ssl/ssl_buffer.cc:83-88 | bytes filled in behind the contents are appended |
| TlsBuffer.SSLBuffer.Consume | Positage/Pods/BoringSSL-GRPC/ssl/ssl_buffer.cc:90-97 | the consumed bytes leave the front, as long as the 16-bit offset cannot wrap |
| TlsBuffer.ConsumeExact | Positage/Pods/BoringSSL-GRPC/ssl/ssl_buffer.cc:90-97 | the contents after a consumption are right, whatever they are, exactly when the 16-bit offset does not wrap |
| TlsBuffer.FlushExact | Positage/Pods/BoringSSL-GRPC/ssl/ssl_buffer.cc:239-252 | the wire and the buffer hold the contents in order, for all contents and all short writes, exactly when the contents end within 16 bits |
| TlsBuffer.FullBufferBreaks | Positage/Pods/BoringSSL-GRPC/ssl/ssl_buffer.cc:47-97 | a full buffer of the largest size, allocated at an odd address: a write of all but its last byte leaves the wrong byte behind |
| TlsBuffer.SSLBuffer.Flush | Positage/Pods/BoringSSL-GRPC/ssl/ssl_buffer.cc:239-252 | the transport gets the buffer by short writes whose exact effect is given, 16-bit offset included; when the contents end within 16 bits, what was taken and what is left is what was there |
| TlsWriter.ChunksExact | Positage/Pods/BoringSSL-GRPC/ssl/s3_both.cc:184-194 | a message is cut into records of at most the fragment size that join up to it |
| TlsWriter.Writer.AddRecordToFlight | Positage/Pods/BoringSSL-GRPC/ssl/s3_both.cc:135-165 | a record is sealed behind the flight, or nothing is, exactly when the cipher fails |
| TlsWriter.Writer.AddMessage | Positage/Pods/BoringSSL-GRPC/ssl/s3_both.cc:184-205 | the records sealed are the pieces of the message in order, all of them on success, and the flight grows by no more than their overhead |
| TlsWriter.Writer.FlushFlight | Positage/Pods/BoringSSL-GRPC/ssl/s3_both.cc:231-279 | wire order is kept through every short or failed write; it succeeds exactly when nothing was pending or neither shutdown, size, transport nor a missing BIO is in the way, and then everything sealed is on the wire |
| TlsWriter.Writer.WriteFlight | Positage/Pods/BoringSSL-GRPC/ssl/s3_both.cc:257-269 | the write loop over the flight |
| TlsWriter.Writer.WritePending | Positage/Pods/BoringSSL-GRPC/ssl/s3_pkt.cc:202-218 | a pending record is let through exactly for a retry of the same type, no shorter, and from the same address unless moving is allowed, when the transport takes it |
| TlsWriter.Writer.DoWrite | Positage/Pods/BoringSSL-GRPC/ssl/s3_pkt.cc:221-289 | flushes what is pending or seals one record behind the unsent flight; it succeeds exactly when the record is admitted and cipher and transport are willing; either nothing was sealed and the memo is as before, or the record is remembered; wire order is kept when the room asked for fits 16 bits |
| TlsWriter.Writer.SealIntoBuffer | Positage/Pods/BoringSSL-GRPC/ssl/s3_pkt.cc:237-273 | the unsent flight goes in front of the new record; wire order is kept exactly when the contents then end within 16 bits |
| TlsWriter.Writer.WriteStep | Positage/Pods/BoringSSL-GRPC/ssl/s3_pkt.cc:183-187 | one record of application data: what is sealed continues what was pending, and wire order is kept |
| TlsWriter.Writer.WriteTurn | Positage/Pods/BoringSSL-GRPC/ssl/s3_pkt.cc:164-191 | a record of at most the fragment size and what the ticket still allows; early data is counted exactly; wire order is kept |
| TlsWriter.Writer.WriteRest | Positage/Pods/BoringSSL-GRPC/ssl/s3_pkt.cc:162-199 | the loop, in whole-write and partial-write mode: it seals the data behind what was sealed before, once and in order, and keeps wire order |
| TlsWriter.Writer.WriteAppData | Positage/Pods/BoringSSL-GRPC/ssl/s3_pkt.cc:129-200 | the plaintext sealed for a write that succeeds is that write, exactly once, if and only if the retries offered the same bytes; what was accepted and what is in flight is what was sealed; a retry shorter than the progress loses the account; the reasons to fail are listed exactly, and a write that nothing speaks against goes through, in full or in part as the mode says; early data never exceeds the ticket; wire order is kept |
| TlsWriter.ExactlyWhenRetried | Positage/Pods/BoringSSL-GRPC/ssl/s3_pkt.cc:129-200 | sealing what is behind the bytes in flight completes the write exactly when those are its first bytes |
| TlsWriter.ShortRetryRepeats | Positage/Pods/BoringSSL-GRPC/ssl/s3_pkt.cc:145-157 | after a retry that was too short, whatever is offered next, bytes that were in flight are sealed again |
| TlsWriter.Writer.DispatchAlert | Positage/Pods/BoringSSL-GRPC/ssl/s3_pkt.cc:405-423 | however often it is called, the waiting alert is sealed once and behind no other pending record; it is written exactly when it is admitted and cipher and transport are willing; wire order is kept |
| TlsWriter.Writer.SendAlert | Positage/Pods/BoringSSL-GRPC/ssl/s3_pkt.cc:377-403 | nothing is sent after a closing alert; an alert waits for the buffer and is remembered until it is written; wire order is kept |
| TlsWriter.Writer.SendFatalAlert | Positage/Pods/BoringSSL-GRPC/ssl/ssl_lib.cc:1156-1168 | while an alert is waiting, the same one is tried again and any other refused |
| TlsReader.MessageRoundTrip | Positage/Pods/BoringSSL-GRPC/ssl/s3_both.cc:399-425 | a message that was written is parsed back |
| TlsReader.NextIsSent | Positage/Pods/BoringSSL-GRPC/ssl/s3_both.cc:399-425 | out of a prefix of the sender's stream, the next message is the sender's, and is there exactly when the stream has brought it in full |
| TlsReader.TakenIsPrefix | Positage/Pods/BoringSSL-GRPC/ssl/s3_both.cc:427-439 | however the stream is cut into records, the messages handed out are a prefix of the sender's |
| TlsReader.AllTaken | Positage/Pods/BoringSSL-GRPC/ssl/s3_both.cc:562-583 | once the stream has arrived and no message is left, all were handed out and the buffer is empty |
| TlsReader.MessageReader.CanAccept | Positage/Pods/BoringSSL-GRPC/ssl/s3_both.cc:441-459 | refuses exactly when the buffer begins with a whole message, or holds a header that announces a body over the limit; so the buffer never holds more than a message of the limit before a record joins it |
| TlsReader.MessageReader.Append | Positage/Pods/BoringSSL-GRPC/ssl/s3_both.cc:552-559 | a handshake record is appended |
| TlsReader.MessageReader.GetMessage | Positage/Pods/BoringSSL-GRPC/ssl/s3_both.cc:427-439 | hands out the message at the front exactly when it is complete |
| TlsReader.MessageReader.NextMessage | Positage/Pods/BoringSSL-GRPC/ssl/s3_both.cc:562-583 | the message leaves the front, and nothing else changes |
| TlsReader.MessageReader.HasUnprocessed | Positage/Pods/BoringSSL-GRPC/ssl/s3_both.cc:461-472 | reports exactly bytes beyond the current message |
| CipherChoice.Rank | Positage/Pods/BoringSSL-GRPC/ssl/handshake_server.cc:393-401 | the index at which the other list is searched is its first place for the cipher |
| CipherChoice.SupportedExactly | Positage/Pods/BoringSSL-GRPC/ssl/handshake_server.cc:393-401 | a cipher is supported exactly when the version is one of its own and its key exchange and authentication are among those enabled |
| CipherChoice.BestIsUnique | Positage/Pods/BoringSSL-GRPC/ssl/handshake_server.cc:357-424 | the rule for equal-preference groups leaves no choice |
| CipherChoice.ScanLinked | Positage/Pods/BoringSSL-GRPC/ssl/handshake_server.cc:402-407 | inside a group the scan keeps the lowest rank of the group |
| CipherChoice.ScanEnds | Positage/Pods/BoringSSL-GRPC/ssl/handshake_server.cc:408-420 | at the end of a group the scan has the answer, or nothing acceptable so far |
| CipherChoice.Choose | Positage/Pods/BoringSSL-GRPC/ssl/handshake_server.cc:390-423 | the one-pass loop returns the cipher of the rule, and none exactly when none is acceptable |
| CipherChoice.ChooseCipher | Positage/Pods/BoringSSL-GRPC/ssl/handshake_server.cc:357-424 | the same for the list that has priority, and none exactly when no common cipher is supported |
| CipherChoice.UngroupedIsFirst | Positage/Pods/BoringSSL-GRPC/ssl/handshake_server.cc:377-385 | without groups the rule is the first acceptable cipher of the client |
| RsaPadding.MsbW | Positage/Pods/BoringSSL-GRPC/crypto/internal.h:244-246 | all ones exactly when the top bit is set |
| RsaPadding.IsZeroW | Positage/Pods/BoringSSL-GRPC/crypto/internal.h:303-316 | all ones exactly for zero |
| RsaPadding.EqW | Positage/Pods/BoringSSL-GRPC/crypto/internal.h:325-328 | all ones exactly for equal words |
| RsaPadding.IsZero8 | Positage/Pods/BoringSSL-GRPC/crypto/internal.h:320-322 | the byte mask of the zero test |
| RsaPadding.Eq8 | Positage/Pods/BoringSSL-GRPC/crypto/internal.h:332-334 | the byte mask of the equality test |
| RsaPadding.Select8 | Positage/Pods/BoringSSL-GRPC/crypto/internal.h:359-362 | a full mask selects the first byte, a zero mask the second |
| RsaPadding.PaddingMask | Positage/Pods/BoringSSL-GRPC/ssl/handshake_server.cc:1157-1171 | the mask is 0xff exactly for 00 02, bytes that are not zero, 00 and the client version, and 0 for every other block |
| RsaPadding.CheckPadding | Positage/Pods/BoringSSL-GRPC/ssl/handshake_server.cc:1136-1178 | the premaster is the decrypted tail for a well-padded block and the random one, in full, for any other; a short decryption is refused |
| RsaPadding.WellPaddedIsDecoding | Positage/Pods/BoringSSL-GRPC/ssl/handshake_server.cc:1157-1171 | the accepted blocks are those that decode, by the rule of section 7.2.2 of RFC 3447, to 48 bytes that begin with the version |
| HandshakeClient.FollowsFlow | Positage/Pods/BoringSSL-GRPC/ssl/handshake_client.cc:1707-1789 | the states of the client, taken together, are the message flow of section 7.3 of RFC 5246 and section 3.1 of RFC 5077 |
| HandshakeServer.FollowsFlow | Positage/Pods/BoringSSL-GRPC/ssl/handshake_server.cc:1539-1621 | so are the states of the server, with the same flow |
| HandshakeClient.DoFollows | Positage/Pods/BoringSSL-GRPC/ssl/handshake_client.cc:385-1705 | in every state the client can be in, a call consumes the next message of the flow, sends what comes next, or neither, and never fails |
| HandshakeServer.DoFollows | Positage/Pods/BoringSSL-GRPC/ssl/handshake_server.cc:426-1537 | the same for the server |
| HandshakeClient.DoMoves | Positage/Pods/BoringSSL-GRPC/ssl/handshake_client.cc:1707-1789 | every call fails, reaches the next state, asks for a message, or is suspended |
| HandshakeServer.DoMoves | Positage/Pods/BoringSSL-GRPC/ssl/handshake_server.cc:1539-1621 | the same for the server |
| HandshakeFlow.LinkConsume | Positage/Pods/BoringSSL-GRPC/ssl/handshake.cc:215-222 | consuming what arrived first keeps the two sides of the flow linked by what is in flight |
| HandshakeFlow.LinkSend | Positage/Pods/BoringSSL-GRPC/ssl/handshake.cc:176-184 | sending what comes next keeps them linked |
| HandshakeEffect.FollowsAccounts | Positage/Pods/BoringSSL-GRPC/ssl/handshake.cc:215-222 | a call puts each message into the transcript once, in the order of the flow |
| HandshakeRun.ResolveKeeps | Positage/Pods/BoringSSL-GRPC/ssl/handshake.cc:491-628 | writing part of a flight, reading a record and being re-entered keep the link and never fail |
| HandshakeRun.NeitherFails | Positage/Pods/BoringSSL-GRPC/ssl/handshake.cc:491-628 | for all agreed flags and every schedule of steps, partial writes, suspensions and re-entries, neither machine meets an unexpected message or a Finished that does not verify |
| HandshakeRun.FinishedMatches | Positage/Pods/BoringSSL-GRPC/ssl/handshake.cc:380-429 | against an honest peer, a Finished that is about to be checked was computed over exactly the transcript of the side that checks it |
| HandshakeRun.TranscriptsAgree | Positage/Pods/BoringSSL-GRPC/ssl/handshake.cc:431-476 | two machines that are done have equal transcripts |
| HandshakeRun.TranscriptIsFlow | Positage/Pods/BoringSSL-GRPC/ssl/handshake.cc:215-222 | a machine that is done has every handshake message of the flow in its transcript once, in order |
| HandshakeRun.NoDeadlock | Positage/Pods/BoringSSL-GRPC/ssl/handshake.cc:491-628 | when neither side can move, both are done |
| HandshakeRun.NeverDeadlocked | Positage/Pods/BoringSSL-GRPC/ssl/handshake.cc:491-628 | from every reachable state there is a schedule that finishes both |
| HandshakePeer.MismatchRefused | Positage/Pods/BoringSSL-GRPC/ssl/handshake.cc:380-429 | a Finished that was not computed over the transcript of the side that checks it is refused, and so is any other message in its place |
| HandshakeClientSafety.DoneMeansVerified | Positage/Pods/BoringSSL-GRPC/ssl/handshake_client.cc:1707-1789 | against any peer, whatever it sends and however the client is scheduled: a client that is done has taken and sent exactly the two halves of a flow of the standards, each message once in its transcript, and has verified a Finished of the server over its transcript so far |
| HandshakeServerSafety.DoneMeansVerified | Positage/Pods/BoringSSL-GRPC/ssl/handshake_server.cc:1539-1621 | the same for the server against any peer; and if it insists on a certificate, the client sent one |
| ClientHandshake.DoOne | Positage/Pods/BoringSSL-GRPC/ssl/handshake_client.cc:385-1705 | each do_* function on the object is the one of the model; a Finished is refused exactly when it does not match; from every state an honest handshake reaches, it does not fail and keeps to the flow |
| ClientHandshake.Handshake | Positage/Pods/BoringSSL-GRPC/ssl/handshake_client.cc:1707-1789 | terminates; the object takes the steps of the model up to the first that waits, so facing an honest server it never fails and stays linked to it |
| ClientHandshake.RunHandshake | Positage/Pods/BoringSSL-GRPC/ssl/handshake.cc:491-628 | resolving waits and calling the machine is a run of the model, for every transport and callback: facing an honest server it never fails; facing any peer it goes on only along the flow and is done only after it has verified a Finished; it stops only when done, held up, or returning early |
| ServerHandshake.DoOne | Positage/Pods/BoringSSL-GRPC/ssl/handshake_server.cc:426-1537 | the same for the do_* functions of the server |
| ServerHandshake.Handshake | Positage/Pods/BoringSSL-GRPC/ssl/handshake_server.cc:1539-1621 | the same for the loop of the server |
| ServerHandshake.RunHandshake | Positage/Pods/BoringSSL-GRPC/ssl/handshake.cc:491-628 | the same for the server, facing an honest client or any peer |

## Left out

- nanopb callbacks, extensions, pointer fields, malloc, null-terminated and delimited variants: function pointers and thin wrappers.
- nanopb error texts, and what a struct holds after a failed decode.
- nanopb struct contents outside the message: bytes behind a string's terminator, array elements beyond the count, a oneof that selects nothing. Elements that a fixed-count run did not deliver are shown as absent.
- nanopb fixed-count arrays directly inside a proto3 singular submessage: the zero test reads their count from memory that is not a count.
- PbDecoder.IStream.Read: reads from a memory buffer; other input streams are not modelled.
- DtlsSender.Sender.SealRecord: only success or failure and the bound on what sealing adds; the numbering of records is in DtlsRecordWriter, and the ciphers are functions.
- DtlsRecordWriter.RecordWriter.SealRecord: once a sequence of 48 bits has run out, the numbers are no longer said to be fresh, since the sequence is then back at zero.
- DTLS alerts inside records, and what a reader does with a record once it is opened.
- HandshakeServerSafety.DoneMeansVerified: for a server that promises a status only where its cipher has a certificate.
- DTLS timers, the query of the MTU, and the flag that a flight has had a reply: short arithmetic and bookkeeping around the flight.
- DTLS HelloVerifyRequest.
- DtlsDelivery.DeliveredIsPrefix: for fewer than 2^16 messages, since the 16-bit sequence number then starts again.
- TLS 1.3, SSL 3.0, V2ClientHello, renegotiation, handoff and 0-RTT rejection: other state machines, or branches on these.
- TlsWriter.Writer.Seal: record protection and the splitting of CBC records are not modelled; sealing gives arbitrary bytes within its bound or fails.
- TlsWriter.Writer.DispatchAlert: the final flush of the transport and the message callbacks are not modelled.
- TlsWriter.Writer.SendAlert: a shutdown is recorded without its kind, and the reading half of SSL_shutdown is not modelled.
- DtlsLiveness.RunDelivered: for runs without a change of the read epoch, in an epoch in which messages ahead of the current one are accepted; DtlsEndToEnd.FlightArrives covers every epoch.
- ClientHandshake.RunHandshake: a suspended operation is one kind of wait, and the early-data waits are not modelled.
- The contents of handshake messages other than the length of a certificate chain and the transcript behind a Finished: parsing, key exchange, signatures and session lookup.
- HandshakeRun.NeitherFails: the two sides agree on the flags, every callback that is ready succeeds, and a server that insists on a certificate meets a client that has one.
- The constant-time comparison for less-than, which the padding check does not use.
- The DTLS variant of the record buffer's flush, and reading into the buffer.
