# IEC 61850 stack: verified model

A Dafny 4.11 model of the protocol cores of a Go implementation of IEC 61850
(MMS client and server, GOOSE, and the routed session protocol of
IEC 61850-90-5), with proofs of what they promise. `dafny verify
dfyconfig.toml` checks all of it.

Code that computes is a function; code that works by changing things is a
method or a class proved against such a function or against one step of a state
machine. Results over runs are about every sequence of steps, so about every
interleaving of the goroutines, callbacks or requests the steps stand for.

| module | models |
|---|---|
| `Octets`, `Options` | octet strings, big-endian numbers, an optional value |
| `Ber`, `BerElement`, `BerPrimitives` | BER identifier and length octets, the element tree and its size forecast, primitive contents |
| `BerDecoder`, `BerGrammar` | the cursor decoder, and the BER grammar of ITU-T X.690 section 8.1 that it accepts exactly |
| `MmsData`, `MmsTypeSpec` | the Data and TypeSpecification codecs of ISO 9506-2 with their limits |
| `Wire`, `SpduWire` | the octets of all of these as the standards write them, apart from the encoders |
| `Taken` | what octets mean, as relations, which the decoders accept exactly |
| `GooseMessage`, `GoosePublisher`, `GooseSubscriber` | the GOOSE PDU, the publisher with its retransmission loops, the subscriber's anomaly detection |
| `SessionKeys`, `Spdu`, `ReplayWindow`, `ReplayTable`, `KeyKeeper` | the session PDU, replay protection per sender, and the keeping of a group's keys |
| `Control`, `Termination` | select-before-operate reservations, and the CommandTermination of an enhanced operate |
| `ServerConn` | the order of responses and unconfirmed PDUs on one association |
| `Paging`, `Listing` | pages filled to the PDU size, and the client loops that follow them |
| `SettingGroups` | the setting group control block and its stores |
| `DataModel`, `Access`, `NameSpace`, `Reads` | the object model, composed values and types, the name space, and what a read by name gives |
| `Browsing` | listing and reading a device from end to end |

Where the code does not have a property its documentation or design suggests,
the exact condition under which it does is proved:

- `TagSize` is one octet short for tag numbers from 2^28 on (`Ber.TagSizeExact`).
- The first frame of a Refresh is flagged as a sequence gap by every subscriber
  that has seen a frame before it (`GooseSubscriber.LosslessFeed`), and a lost
  Refresh can hide the loss (`GooseSubscriber.LossFlaggedExactly`).
- Evicting idle senders can readmit a replayed number when the reset time is
  negative, which means never (`ReplayTable.EvictionNeutral`).
- A structure written to `$SBO` is carried out without a selection
  (`Control.OthersCannotEnd`, `Control.UnselectedWriteExecutes`).
- A device whose document records a value for group 1 and declares no active group,
  or puts the SE attribute of a setting first, can start with an active view that
  is not its active group's, and its control block always starts at group 1
  (`SettingGroups.DocumentStartsInStep`).
- An object with a leaf of an unknown type in an object below it reads as a
  structure shorter than it is described (`Access.ObjectConformsExactly`).
- A loss across the wrap of stNum can be flagged as a regression
  (`GooseSubscriber.LossFlaggedExactly`).
- A registration that upsets a tie does not choose the active key again
  (`KeyKeeper.RegistrationEnds`, `KeyKeeper.BestSinceChoice`).
- A refused operate is terminated if its handler finished before it refused
  (`Termination.TerminatedOnce`), and a deferred response can be overtaken by what
  was to follow it (`ServerConn.DeferredIsOvertaken`).
- The value count refuses some types within the limit, none below half of it
  (`MmsTypeSpec.ValueCountExact`, `MmsTypeSpec.RefusedIsLarge`).
- Contents of 2^32 octets and more are encoded with a length cut to 32 bits
  (`BerElement.LengthOctetsExact`, `MmsData.RoundTrip`).

## Model

| member | source | states |
|---|---|---|
| Ber.TagSizeExact | asn1/ber.go:80-141 | the forecast of the identifier octets equals what is written exactly for tag numbers below 2^28; above, one octet more is written |
| Ber.LengthSizeExact | asn1/ber.go:109-157 | the forecast of the length octets equals what is written, for every length |
| Ber.AppendTag | asn1/ber.go:81-106 | appends exactly the identifier octets: low form, or base-128 digits with continuation bits |
| Ber.AppendLength | asn1/ber.go:109-125 | appends exactly the length octets, short or long form |
| BerElement.EncodedLength | asn1/element.go:62-103 | the octets written are the forecast plus one for each tag numbered 2^28 or more anywhere in the tree, so the forecast is exact iff there is none |
| BerElement.ForecastContent | asn1/element.go:62-74 | the accumulating loop computes the content size of the tree |
| BerElement.Forecast | asn1/element.go:77-83 | the size of the element with its header, nothing added to a raw TLV |
| BerElement.Append | asn1/element.go:86-103 | appends the element encoding to what is there |
| BerElement.LengthOctetsExact | asn1/ber.go:109-125 | the length octets are read back as n modulo 2^32, so as n iff n is below 2^32 |
| BerElement.EncodedReads | asn1/decoder.go:121-160 | an encoded element is read back with its tag and content, and exactly what followed it is left |
| BerElement.LongContentIsCut | asn1/element.go:86-103 | an element with a content of 2^32 octets or more is read back with part of its content left over |
| BerElement.EncodedDerives | asn1/element.go:86-103 | every encoded element is a definite-length element of the BER grammar, with the same octets, tag and content |
| BerElement.FirstReads | asn1/decoder.go:163-189 | of a run of encoded elements Expect and Optional read the first by its tag and leave the others, and Optional of another tag reads nothing |
| BerDecoder.Decoder.ReadTag | asn1/decoder.go:37-70 | reads the identifier the octets at the cursor spell, or fails, and moves by the octets used |
| BerDecoder.Decoder.ReadLength | asn1/decoder.go:74-101 | reads a definite or indefinite length, or fails, and moves by the octets used |
| BerDecoder.Decoder.ReadTLVAt | asn1/decoder.go:125-160 | reads one element, scanning an indefinite one for its end-of-contents octets at most 64 levels deep |
| BerDecoder.Decoder.ReadTLV | asn1/decoder.go:121-123 | the tag and content of the next element, the cursor after it |
| BerDecoder.Decoder.Expect | asn1/decoder.go:163-172 | the content of the next element if it has the tag |
| BerDecoder.Decoder.Peek | asn1/decoder.go:104-109 | the next tag, the cursor unmoved |
| BerDecoder.Decoder.Optional | asn1/decoder.go:176-189 | the content of the next element if it has the tag; absent, the cursor is unmoved |
| BerDecoder.Decoder.ReadSpan | asn1/span.go:26-58 | reads exactly the elements ReadTLV reads, with all the octets of each |
| BerGrammar.Complete | asn1/decoder.go:125-160 | every element the grammar derives within the depth limit is accepted, with its tag, its content and all of its octets, whatever follows |
| BerGrammar.Sound | asn1/decoder.go:125-160 | whatever is accepted is an element of the grammar, of that tag, that content and those octets |
| BerGrammar.AcceptsExactlyTheGrammar | asn1/decoder.go:125-160 | the decoder accepts an input iff an element of the grammar is in front of it, and reports that element |
| BerGrammar.Unambiguous | asn1/decoder.go:125-160 | no two readings: equal octets in front of equal inputs have equal tags, contents and remainders |
| BerGrammar.SpanParts | asn1/span.go:26-58 | a span is its header, its content and, iff the length is indefinite, two end-of-contents octets |
| BerPrimitives.IntRoundTrip | asn1/primitives.go:10-38 | every 64-bit integer comes back, from at most eight octets, and from no fewer than any content that means it |
| BerPrimitives.AppendInt | asn1/primitives.go:10-16 | the shift loop appends the integer content octets |
| BerPrimitives.MeasureInt | asn1/primitives.go:19-26 | the counting loop gives the number of those octets |
| BerPrimitives.ReadInt | asn1/primitives.go:29-38 | the accumulating loop decodes two's complement content, refusing none and more than eight octets |
| BerPrimitives.UintRoundTrip | asn1/primitives.go:42-74 | every unsigned 64-bit value comes back from at most nine octets, the first without the sign bit |
| BerPrimitives.UintReencoded | asn1/primitives.go:42-74 | re-encoding any unsigned content adds at most one octet |
| BerPrimitives.AppendUint | asn1/primitives.go:42-48 | the shift loop appends the unsigned content octets |
| BerPrimitives.MeasureUint | asn1/primitives.go:51-58 | the counting loop gives the number of those octets |
| BerPrimitives.ReadUint | asn1/primitives.go:62-74 | decodes an unsigned content, refusing none, more than nine octets and nine without a leading zero |
| BerPrimitives.BitStringRoundTrip | asn1/primitives.go:132-158 | any bit string is written as one of max(length, 0) bits and comes back as that, the bits cut or zero-extended |
| Wire.IntOnWire | asn1/primitives.go:10-26 | every 64-bit integer is written in two's complement, the first octet counting most, with the first nine bits not all alike |
| Wire.UintOnWire | asn1/primitives.go:42-58 | every unsigned 64-bit number is written so too, with room for the sign |
| Taken.IntExactly | asn1/primitives.go:29-38 | a content decodes to a number iff it has one to eight octets and means the number in two's complement |
| Taken.UintExactly | asn1/primitives.go:62-74 | a content decodes to an unsigned number iff it has one to eight octets, or nine and the first is zero, and means the number |
| MmsData.DataSizeExact | mms/value_codec.go:33-87 | the size forecast of every value equals the octets written |
| MmsData.RoundTrip | mms/value_codec.go:33-192 | a well-formed value comes back from its octets, whatever follows, iff it is nested at most 32 levels and its content is below 2^32 octets; a deeper one is refused as too deep |
| MmsData.RoundTripAll | mms/value_codec.go:105-192 | the same for a list of values |
| MmsData.DecodedFits | mms/value_codec.go:94-192 | whatever is decoded is well formed, within the depth limit, and encodes into at most twice the octets it came in |
| MmsData.DecodeEncodeDecode | mms/value_codec.go:33-192 | decoding, encoding and decoding again gives the first decode iff what was decoded has a content below 2^32 octets, as it has for every input below 2 GiB |
| MmsData.AccessResultIsData | mms/value_codec.go:196-213 | both branches of the access result decoder agree with decoding the element as Data |
| MmsData.AppendData | mms/value_codec.go:81-87 | appends the encoding of the value |
| MmsData.ReadData | mms/value_codec.go:94-103 | decodes the next element at a cursor and moves past it, or gives the error |
| MmsData.ReadDataTLV | mms/value_codec.go:105-192 | decodes one tag and content |
| MmsData.ReadChildren | mms/value_codec.go:116-123 | the loop over the children of an array or structure |
| Wire.DataOnWire | mms/value_codec.go:33-87 | every value goes out as the octets of the Data CHOICE of ISO 9506-2, written out: 0xa1 array, 0xa2 structure, 0x83 to 0x91 for the others, 0x80 for an access error, 8 or 11 before the octets of a float |
| Taken.DecodeExactly | mms/value_codec.go:90-192 | octets decode to a value iff an element is in front whose identifier and content mean the value, member by member and at most 32 levels deep |
| Taken.HeadDecides | mms/value_codec.go:105-192 | the identifier octet in front decides the kind of value, for each kind as an iff |
| MmsTypeSpec.TypeSpecRoundTrip | mms/typespec.go:32-133 | any type comes back from its octets, whatever follows, iff it is within the declared limits, nested at most 32 levels, counts at most 2^20 values and has a content below 2^32 octets |
| MmsTypeSpec.TypeRoundTrip | mms/typespec.go:135-277 | the same without the count; one within the limits and too deep is refused as such |
| MmsTypeSpec.DecodedWithinLimits | mms/typespec.go:135-277 | every accepted type keeps the limits on array elements and bit string sizes |
| MmsTypeSpec.ValueCountExact | mms/typespec.go:105-133 | a type is within the limit by the count iff no array reaches the quotient of the ceiling and its element's values and it materialises into at most 2^20 values; and then the count is exact |
| MmsTypeSpec.CountClosed | mms/typespec.go:105-133 | the count is the number of values materialised under that condition and the ceiling otherwise, for every type |
| MmsTypeSpec.RefusedIsLarge | mms/typespec.go:115-122 | whatever the count refuses materialises into more than 2^19 values |
| MmsTypeSpec.ValueCountMayRefuse | mms/typespec.go:115-122 | a type of 524298 values, within the limit, that is refused |
| MmsTypeSpec.AcceptedMaterialises | mms/typespec.go:91-133 | whatever octets a type came in, if accepted it materialises into exactly the number of values counted, at most 2^20 |
| MmsTypeSpec.CountValues | mms/typespec.go:108-133 | the counter computes that number; each sum and product is stored as a 64-bit integer, which none exceeds |
| MmsTypeSpec.Materialise | mms/typespec.go:281-326 | builds the default value of the type |
| MmsTypeSpec.ReadTypeSpec | mms/typespec.go:91-103 | decodes a type at a cursor and refuses one that counts too many values |
| MmsTypeSpec.ReadType | mms/typespec.go:135-277 | decodes one type at a cursor |
| MmsTypeSpec.ReadArrayType | mms/typespec.go:147-176 | decodes an array type: the packed flag skipped, the count, the element |
| MmsTypeSpec.ReadComponents | mms/typespec.go:187-209 | the loop over the components of a structure |
| MmsTypeSpec.DefaultIsBlank | mms/typespec.go:281-326 | the default value of a type is the one value of that type, member by member, with nothing in any leaf |
| Wire.TypeOnWire | mms/typespec.go:32-77 | every type goes out as the octets of TypeSpecification of ISO 9506-2, written out, 0x30 around components and 0x02 for the parts of a float |
| Taken.TypeExactly | mms/typespec.go:135-277 | octets decode to a type iff an element is in front that means it: the packed flag skipped, a name missing taken as empty, the limits kept, a float of more than 32 bits the long one |
| Taken.TypeHeadDecides | mms/typespec.go:135-277 | the identifier octet in front decides the kind of type, for each kind as an iff |
| GooseMessage.TimeRoundTrip | mms/value.go:154-168 | the eight octets of a time stamp give back the time on the wire and the quality |
| GooseMessage.TimeOnWireClose | mms/value.go:374-386 | that time is never late and at most 60 ns early; before 1970 it is the beginning of 1970, and after 2106 the end of the last second there is |
| GooseMessage.MarshalLength | goose/message.go:63-89 | the APDU is exactly as long as the size the length field is cut from |
| GooseMessage.LengthField | goose/message.go:63-89 | below 64 Ki octets the length field is the length of the APDU |
| GooseMessage.WidestFits | goose/publisher.go:199-208 | if the widest form of a message fits, every retransmission of it fits and has an exact length field |
| GooseMessage.ParseMarshal | goose/message.go:63-175 | every message below 64 Ki octets comes back with the same fields, its time as on the wire, whatever padding follows |
| GooseMessage.Build | goose/message.go:63-89 | builds those octets |
| GooseMessage.ReadMessage | goose/message.go:93-175 | the parser reads the fields in order, with each of its errors |
| GooseMessage.ReadUint32 | goose/message.go:178-188 | reads one unsigned field, refusing one above 32 bits |
| Wire.GooseOnWire | goose/message.go:63-89 | every message goes out as APPID, length, four zeros and the PDU 0x61 with the fields 0x80 to 0xab, written out |
| Taken.GooseExactly | goose/message.go:93-188 | octets parse to a message iff the length covers the header and no more than what arrived and the PDU within it has the fields in order, goID, test and ndsCom alone allowed to be missing |
| GoosePublisher.TatlCoversWait | goose/publisher.go:293-300 | for intervals whose double is below 2^32 ms a frame stays valid at least until the next one is due, and for twice the interval to the millisecond |
| GoosePublisher.AttemptedSendsSequential | goose/publisher.go:139-289 | for every interleaving of Publish, Refresh, Close and all retransmission loops, the frames attempted are the trace of one sequential machine, and each fits a frame |
| GoosePublisher.TraceFacts | goose/publisher.go:135-150 | in such a trace stNum is never 0, sqNum is 0 iff the frame is the first of a Publish or Refresh, and no superseded loop sends after its successor |
| GoosePublisher.NothingAfterClose | goose/publisher.go:237-289 | after Close nothing is attempted, whatever the loops still do |
| GoosePublisher.TooLargeChangesNothing | goose/publisher.go:172-208 | in every run a Publish or Refresh is refused iff the publisher is closed or some retransmission of what it asks for, with any sqNum and timeAllowedToLive, would not fit a frame; and the run with the refused request goes on frame by frame as the run without it |
| GoosePublisher.FramesCarry | goose/publisher.go:176-289 | in every run each frame carries the values, their number, the test and ndsCom flags in force and the configured fields of the last request accepted before it, and the time of the last change of state, all read off the actions |
| GoosePublisher.AskedCarries | goose/publisher.go:176-208 | what a request is refused for the size of is what its frames would carry |
| GoosePublisher.Publisher.PublishValues | goose/publisher.go:139-150 | one Publish step of the machine, with its result |
| GoosePublisher.Publisher.RefreshValues | goose/publisher.go:159-170 | one Refresh step, with its result |
| GoosePublisher.Publisher.PublishLocked | goose/publisher.go:176-225 | the announcement both share: refuse, or supersede the loop, change state, send, start a loop |
| GoosePublisher.Publisher.Shut | goose/publisher.go:237-246 | one Close step |
| GoosePublisher.Publisher.TimerFires | goose/publisher.go:255-269 | a loop's turn up to the lock |
| GoosePublisher.Publisher.RetransmitLocked | goose/publisher.go:275-287 | the critical section of that turn, which looks at stop again |
| GooseSubscriber.Subscription.Receive | goose/subscriber.go:134-191 | delivers a message iff the filter matches, with its anomalies, and keeps the state of its control block |
| GooseSubscriber.JudgedByLast | goose/subscriber.go:154-176 | in every feed a message is judged by the last one of its control block: stale iff later than its timeAllowedToLive after it arrived, a regression and a gap by the two counters of both |
| GooseSubscriber.FirstIsNotJudged | goose/subscriber.go:177-185 | the first message of a control block has none of those anomalies |
| GooseSubscriber.LosslessFeed | goose/subscriber.go:156-177 | hearing, from marshalled and padded octets, any lossless stretch of what any publisher run sent, mixed with any other traffic, no regression is flagged across both wraps, and a gap iff the frame is the first of a Refresh |
| GooseSubscriber.LossFlaggedExactly | goose/subscriber.go:156-177 | in every publisher run and feed, whichever frames were lost, the next one heard is flagged as a gap iff: of another state, it is a retransmission; of the same, a first frame or not the retransmission due; and as a regression iff the changes lost lead across the wrap of stNum, other than from its end to 1 |
| GooseSubscriber.LossIsFlagged | goose/subscriber.go:156-177 | with up to 2^32 - 2 frames lost and no Refresh among them, across state changes and both wraps, a retransmission is flagged iff any were lost |
| GooseSubscriber.RefreshHidesLoss | goose/subscriber.go:164-169 | a publisher run in which the loss of a Refresh and the retransmission after it goes unflagged |
| GooseSubscriber.LossAtTheWrapRegresses | goose/subscriber.go:158-163 | a publisher run in which the loss of the one frame after the wrap of stNum makes the next a regression |
| GooseSubscriber.FrameIsHeard | goose/message.go:93-175 | every frame a publisher sends is parsed, whatever padding follows, with the counters it was sent with |
| GooseSubscriber.LossWithinState | goose/subscriber.go:164-172 | after a loss inside a state the next frame is flagged iff the number lost is not a multiple of 2^32 - 1 |
| GooseSubscriber.InTimeNotStale | goose/subscriber.go:173-176 | a frame that comes within the publisher's wait is not stale |
| GooseSubscriber.FrameTatl | goose/publisher.go:262-269 | every frame of a publisher run carries the timeAllowedToLive of its turn |
| ReplayWindow.Replay.AcceptNumber | rsession/replay.go:23-46 | one decision of the window, its bits shifted and set in place |
| ReplayWindow.ShiftBits | rsession/replay.go:31-36 | a shift of the 64-bit map moves each bit up and drops what leaves it |
| ReplayWindow.StepRefines | rsession/replay.go:23-46 | away from a reset the window decides as the set of all full numbers accepted would, and goes on standing for it |
| ReplayWindow.DecisionIsReference | rsession/replay.go:23-46 | after any run the next number is accepted iff it is ahead of all accepted in the run, or inside the window and not among them |
| ReplayWindow.AcceptedOnce | rsession/replay.go:23-46 | in every run without a reset the window accepts the same number a second time only after its top has moved on by 2^32 - size + 1 since the first |
| ReplayWindow.NumberedOnce | rsession/replay.go:28-43 | of the numbers in full, none is accepted twice |
| ReplayWindow.ResetRefines | rsession/replay.go:24-27 | the first number, and the first after the reset time, is accepted and starts a new set |
| ReplayWindow.SilenceSinceAccepted | rsession/replay.go:23-46 | in every run the silence that resets the window is counted from the last number accepted |
| ReplayTable.EvictionNeutral | rsession/session.go:369-387 | dropping idle senders from a full table changes no decision of any run iff the reset time is positive |
| ReplayTable.ReplayAdmitted | rsession/session.go:369-387 | with a reset time that is not positive, as a negative one is kept, a run in which an evicted sender's number is accepted twice |
| ReplayTable.DecisionsAgree | rsession/session.go:369-387 | from tables that agree, the evicting and the keeping session decide alike on every datagram |
| ReplayTable.Session.Fresh | rsession/session.go:369-387 | one decision, with the table after it |
| ReplayTable.Session.DropIdle | rsession/session.go:376-382 | the eviction loop keeps exactly the senders heard within the reset time |
| ReplayTable.ForgottenExactly | rsession/session.go:369-387 | a check forgets a stream iff it makes room for a new one among 4096 and the stream has been silent for longer than the reset time |
| Spdu.RoundTrip | rsession/spdu.go:130-400 | every SPDU that can be encoded, in both versions, signed, encrypted or unsecured, comes back with its identifier, number, key fields and payload list |
| Spdu.PayloadsRoundTrip | rsession/spdu.go:376-398 | the payload list comes back with or without the two-octet length leniency |
| Spdu.LeniencyIsHarmless | rsession/spdu.go:376-398 | on any user data the strict reading accepts, the lenient one gives the same |
| Spdu.AcceptedIsAuthentic | rsession/spdu.go:251-400 | whatever octets arrive, the payloads accepted are those of the user data at their place in the datagram: nothing after them if no key is named; else vouched for by a key the receiver holds, by the MAC of everything before the signature, or by opening the octets there with the vector there and all before them as additional data |
| Spdu.VerifiedIsAuthentic | rsession/spdu.go:330-374 | the trailer check gives a user data iff the signature after the user data and any padding vouches for it, by MAC or by opening |
| Spdu.Send | rsession/spdu.go:130-234 | builds the SPDU octets or gives the error |
| Spdu.WriteHeader | rsession/spdu.go:176-204 | builds the header of either version |
| Spdu.MeasurePayloads | rsession/spdu.go:157-163 | adds up the length of the user data, or finds an APDU above 65535 octets |
| Spdu.AppendPayloads | rsession/spdu.go:206-214 | appends the payload elements |
| Spdu.Receive | rsession/spdu.go:251-400 | the decoder as it runs over its reader |
| Spdu.ReadSecInfo1 | rsession/spdu.go:274-294 | the security information of version 1 |
| Spdu.ReadSecInfo2 | rsession/spdu.go:295-310 | the security information of version 2 |
| Spdu.ReadUser | rsession/spdu.go:315-374 | the user data, verified and opened |
| Spdu.ReadPayloads | rsession/spdu.go:376-398 | the loop over the payload elements |
| Spdu.Reader.Take | rsession/spdu.go:434-442 | the next n octets, none once the reader has run out |
| SpduWire.SpduOnWire | rsession/spdu.go:130-234 | every SPDU that can be encoded goes out as the header and body the standard lays out, written out; the SPDU length is the number of octets after it, and the session header length leads to the user data |
| SpduWire.SpduExactly | rsession/spdu.go:251-400 | octets decode to an SPDU iff the header has its fields and names no key or one held, with its algorithms, the payload elements lie where it says, and a signature vouches for them iff there is a key |
| SpduWire.RefusedExactly | rsession/spdu.go:130-165 | which SPDUs and keys cannot be encoded, and the error for each |
| KeyKeeper.StoreFollowsMember | gdoi/keeper.go:130-236 | in every run of registrations, activations and removals in any order, the store holds exactly the SPIs marked added, has no active key iff it is empty, and otherwise sends with a key no other was activated after |
| KeyKeeper.StepKeeps | gdoi/keeper.go:130-236 | every step keeps that, and one mark of the active key that agrees with the store |
| KeyKeeper.RemovedIsGone | gdoi/keeper.go:220-236 | a removal takes a key out of the member and the store and leaves every other stored |
| KeyKeeper.ActivatedIsStored | gdoi/keeper.go:168-182 | an activation stores a key iff it is known, not yet stored and fit, and then no stored key is preferred to the one sent with |
| KeyKeeper.BestExactly | gdoi/keeper.go:186-213 | a key is preferred to by none iff none in use was to be activated later and of those to be activated with it none lives longer |
| KeyKeeper.TimesOfKey | gdoi/keeper.go:134-160 | in every run a known key is to be activated when the registration that made it known said, and expires when the last one to list it said |
| KeyKeeper.RegistrationEnds | gdoi/keeper.go:130-166 | after a registration of any number of keys, the rest removed in any order, the store has lost exactly the unlisted keys, and the key sent with is one that none is preferred to, the longest-lived on a tie, iff no listed key's last expiry upsets a tie with it |
| KeyKeeper.BestSinceChoice | gdoi/keeper.go:184-205 | in every run, the key sent with is one that none is preferred to iff the registrations since the last choice have given no tied key in use the later expiry |
| KeyKeeper.TieGoesStale | gdoi/keeper.go:149-165 | a run in which a later registration, listing both keys, makes the other key of a tie the longer-lived and the first is still sent with |
| KeyKeeper.Member.Install | gdoi/keeper.go:130-166 | a registration is its keys listed in turn and the rest removed one after the other; what is known, stored and sent with afterwards |
| KeyKeeper.Member.ListKey | gdoi/keeper.go:134-160 | one key of a registration: its activation time kept if known, its expiry replaced |
| KeyKeeper.Member.ActivateKey | gdoi/keeper.go:168-182 | one activation step |
| KeyKeeper.Member.ChooseActive | gdoi/keeper.go:186-205 | in whatever order the keys are gone through, the one chosen is one no other is preferred to |
| KeyKeeper.Member.RemoveLocked | gdoi/keeper.go:220-236 | one removal step, choosing again iff the key was the active one |
| KeyKeeper.KeyStore.Add | rsession/keys.go:192-204 | stores a valid key under its identifier, refuses another |
| KeyKeeper.KeyStore.Remove | rsession/keys.go:208-217 | removes a key, leaving none active if it was |
| KeyKeeper.KeyStore.SetActive | rsession/keys.go:220-228 | makes a stored key the active one |
| Control.ExecutionsLicensed | server/control.go:164-237 | in every run of SBO reads, control writes, closes and clock advances, each operate carried out by a write to Oper follows an unexpired selection by the same association, with the same ctlNum if it carried one, not used up in between |
| Control.LicensesOnce | server/select.go:92-130 | a selection licenses at most one execution |
| Control.ReservationsExclusive | server/select.go:69-85 | in every run, another association is granted a selection only after the first has expired or been given up |
| Control.OthersCannotEnd | server/select.go:69-141 | nothing another association does ends a live reservation, except, exactly, an accepted structure written to SBO |
| Control.ExecutionNeedsSelection | server/control.go:164-237 | an operate on a select-before-operate object needs the selection iff it is a write to Oper |
| Control.UnselectedWriteExecutes | server/control.go:164-237 | the write that shows it: an unselected object is operated by a structure written to its SBO |
| Control.RunFaithful | server/select.go:69-141 | in every run the selections held are those the history of grants, operates, cancels and closes leaves |
| Control.CarriedOutExactly | server/control.go:90-237 | an operate is carried out iff its structure is there and written whole, its value typed, its model offers it, it is no test under enhanced security, its orIdent has at most 64 octets, the reservation serves it if it needs one, and the handler agrees |
| Control.SelectAcceptedExactly | server/control.go:213-222 | a select-with-value is accepted iff the same holds and no other association holds the object; it reserves the object |
| Control.CancelAcceptedExactly | server/control.go:164-171 | a cancel is accepted iff the same holds but for the handler and the object is not held, or held by the one who asks under the same number |
| Control.ReadGrantedExactly | server/select.go:51-88 | a read of SBO is granted iff the object is declared for it or not at all and no other association holds it |
| Control.RefusedFor | server/control.go:90-237 | what every other request is answered, cause by cause, and that it changes nothing |
| Control.ExecutionsAgreed | server/control.go:90-237 | in every run no operate is carried out that was not written, is not permitted or that the handler refused |
| Control.TimePasses | server/select.go:69-88 | the clock expiries are compared with is the time that has passed in the run |
| Control.Table.ReserveFor | server/select.go:69-85 | reserves an object unless another association holds it |
| Control.Table.SelectSBO | server/select.go:51-61 | the answer to a read of SBO |
| Control.Table.ReleaseSelections | server/select.go:133-141 | drops exactly the selections of a closed association |
| Control.Table.WriteControl | server/control.go:90-238 | one control write: its answer, the selections after it, and whether the operate is carried out |
| ServerConn.ResponseOrder | mms/server_conn.go:527-612 | in every run, each PDU handed over to go first during a request is on the wire before its response, deferred or not, and each other one only after it unless the response was deferred |
| ServerConn.DeferredIsOvertaken | mms/server_ext.go:72-99 | a run in which a deferred response is overtaken by a PDU handed over to follow it |
| ServerConn.SubmissionOrder | mms/server_conn.go:677-713 | in every run, the PDUs of one request on one side of its response are on the wire in the order handed over |
| ServerConn.OutsideOrder | mms/server_conn.go:677-713 | in every run, the PDUs handed over outside any request, first or not, are on the wire in the order handed over |
| ServerConn.NothingLost | mms/server_conn.go:527-713 | in every run each PDU handed over is in exactly one place on its way, or was dropped once, at a queue of 512 or a closed one; none comes twice or from nowhere |
| ServerConn.AnsweredOnce | mms/server_conn.go:527-577 | in every run each request that has come to its response has exactly one on the wire, none while a deferred one is still to come |
| ServerConn.StepsExtendRun | mms/server_conn.go:527-577 | the steps a method takes from the state of a run make a longer run, so both orders hold of them |
| ServerConn.Conn.BeginRequest | mms/server_conn.go:583-587 | one step: holding begins |
| ServerConn.Conn.EndRequest | mms/server_conn.go:589-596 | one step: what was held is taken and holding ends |
| ServerConn.Conn.SendUnconfirmed | mms/server_conn.go:677-695 | one step: held during a request, on the queue otherwise |
| ServerConn.Conn.EnqueueOne | mms/server_conn.go:697-713 | onto the queue unless it is closed or full |
| ServerConn.Conn.Answer | mms/server_conn.go:552-576 | the end of a request is exactly the steps End, one write for each PDU held first, the response, one queueing for each held after, and Finish |
| ServerConn.Conn.Pump | mms/server_conn.go:428-437 | one PDU off the queue and onto the wire |
| Termination.TerminatedOnce | server/control.go:184-237 | in every run no operate attempts two terminations; one accepted without deferral attempts exactly one; a refused one attempts one iff its handler deferred the termination and finished it before it answered |
| Termination.DeferredIsTerminated | server/control.go:311-355 | in every run, an operate accepted with its termination deferred has attempted exactly one once its handler finished it or its timer fired, and none before |
| Termination.SupervisedByTimeout | server/control.go:228-236 | a deferred operate is put under a timer iff an operate timeout is configured |
| Termination.TimedOut | server/control.go:348-355 | a timer that fires before the handler finishes makes the termination negative, with time-limit-over |
| Termination.RefusedYetTerminated | server/control.go:203-212 | a handler that finishes and then refuses: the refused operate is terminated |
| Termination.SentIsFinal | server/control.go:311-355 | once one was attempted, or the operate refused, nothing later attempts another |
| Termination.Owed.FinishWith | server/control.go:311-324 | attempts the termination unless one was or it was discarded |
| Termination.Owed.AfterHandler | server/control.go:203-236 | what the server does once the handler has answered |
| Paging.PagesFit | server/handler.go:161-179 | for every PDU size up to 65559 (65552 for journals) and every invokeID, a page of two or more elements encodes with everything around it within the PDU size |
| Paging.AssociationPages | mms/server_conn.go:397-404 | on every association, whatever size its Initiate request proposes, the PDU size is 1 to 65001 and a name list or journal page becomes a resource error iff it has one element or none and does not fit |
| Paging.PagesOverflow | server/journal.go:621-639 | the limit is sharp: for every larger PDU size, none of which a server negotiates, there is a listing whose two-element page would come out as a resource error |
| Paging.EnvelopeSize | mms/server_ext.go:103-118 | the tags, lengths, invokeID and moreFollows around a list take at most 24 octets up to that size |
| Paging.FillBudget | server/handler.go:166-177 | a page of two or more elements keeps within the PDU size less 24 |
| Paging.FillPage | server/handler.go:166-177 | the filling loop: the longest prefix that keeps the budget, at least one element, and whether more follow |
| Paging.FillIsLongest | server/handler.go:161-177 | a page has its first item in any case and ends only with the listing or before the item that would go over the budget |
| Paging.NegotiatedExactly | mms/server_conn.go:391-404 | the PDU size is the proposed one if that is from 1 to 65001, and otherwise 65001 |
| Listing.GetNameList | mms/services.go:98-119 | whatever octets the peer answers with, the loop ends within 2^20 + 1 requests, with the outcome the pages read lead to |
| Listing.ReadJournalAll | mms/services_journal.go:69-91 | the same for a journal, where an entry without identifier never counts as no progress |
| Listing.ListingComplete | mms/services.go:98-119 | against a server paging an unchanged listing of at most 2^20 items with distinct non-empty keys, each of which fits alone, following the pages gives the whole listing in order |
| Listing.NameListComplete | server/handler.go:152-179 | GetNameList against getNameList, the responses encoded and decoded, returns exactly the list of names |
| Listing.JournalComplete | server/journal.go:518-640 | reading a journal returns exactly what the first query selects, no count cutting that short |
| Listing.ContinuesSelection | server/journal.go:518-564 | continuing after an entry of an answer selects exactly the rest of the answer iff no count of the query cut it short |
| Listing.SelectEntries | server/journal.go:518-564 | the run of the log from where the query begins to where it ends |
| Listing.SelectedExactly | server/journal.go:518-564 | a query selects the one run of the log that begins at the first entry not earlier than its start time, at its start entry, after the entry to continue after or after that one's time, and ends at the first later than its stop time, its count or the end |
| Listing.SpanSelected | server/journal.go:548-564 | of a log in the order of time an entry is selected iff its time lies in the span asked for |
| Listing.CountKeepsFirst | server/journal.go:560-562 | a count keeps the first so many of what is selected without it |
| Listing.FollowOn | mms/services.go:98-119 | what the client makes of a page: done, too many, no progress, or the next request |
| Listing.ContinueAfter | server/handler.go:152-160 | the names after the first that is the one given, all of them if there is none such |
| Listing.NamePageRoundTrip | mms/services.go:141-167 | the page a server encodes is the page the client decodes |
| Listing.ReplyIsRead | mms/services.go:137-167 | the client reads from the octets of each response the page the server filled, or the error it sent instead |
| Listing.ReadNamePage | mms/services.go:141-167 | decodes a name list response, moreFollows defaulting to true |
| Wire.NameListOnWire | server/handler.go:161-181 | every page of names goes out as 0xa1 around a list 0xa0 of names 0x1a and a flag 0x81, and the confirmed response around it, written out |
| Wire.JournalOnWire | server/journal.go:610-640 | a journal response goes out as 0xbf 0x41 around its list and flag |
| Taken.NamePageExactly | mms/services.go:141-167 | a response is taken for a page iff it is a list of names and, if it can be read, a flag that more follow |
| SettingGroups.WriteRefines | server/settinggroup.go:165-239 | every write of ActSG, EditSG, CnfEdit, an edit value or an active value does to (stores, active group, edit buffer) what it should, with the same answer |
| SettingGroups.RunRefines | server/settinggroup.go:165-239 | so does every sequence of writes |
| SettingGroups.ReadsAreMeant | server/settinggroup.go:197-239 | once the active view equals the active group's store, and from the first accepted ActSG in any case, what is read is the store of the active group after every sequence |
| SettingGroups.WriteKeepsView | server/settinggroup.go:197-239 | every write keeps the view in step with the store and the control block with the device |
| SettingGroups.OnlyConfirmStores | server/settinggroup.go:224-237 | only a confirmation changes a store, and only that of the group edited, into the edit buffer |
| SettingGroups.UnconfirmedIsUnseen | server/settinggroup.go:197-239 | without a confirmation no store changes in any sequence |
| SettingGroups.ConfirmStoresTheEdits | server/settinggroup.go:213-237 | opening a group, any edits, and confirming stores for each setting the last value accepted for it |
| SettingGroups.StartsInStep | server/server.go:258-283 | of the model the server is given: a device starts with view and store in step iff its active group exists and its seeds are the attributes' own values, and with a right control block iff that group is the first |
| SettingGroups.DocumentStartsInStep | scl/model.go:104-112 | a document loaded and served: view and store start in step iff the active group exists and, for every setting, the document declares that group and the SG attribute takes its value, or no other value is recorded for it |
| SettingGroups.DeclaredStartsInStep | scl/model.go:142-168 | a declared group that exists starts in step where every SG attribute comes before an SE attribute of its name, while the control block reads 1 |
| SettingGroups.UndeclaredStartsOutOfStep | scl/model.go:146-149 | a document that declares no active group and records a value for group 1 starts out of step |
| SettingGroups.EditViewTakesTheValue | scl/model.go:173-197 | a document that declares its active group starts out of step where the SE attribute comes first: that takes the value |
| SettingGroups.ApplyActiveGroup | scl/model.go:146-168 | the loop writes the last value recorded for the declared group onto the first attribute of each setting's name |
| SettingGroups.Manager.HandleWrite | server/handler.go:367-407 | one write: checked, stored, applied |
| SettingGroups.Manager.SelectActive | server/settinggroup.go:203-212 | switches every setting to the group |
| SettingGroups.Manager.SelectEdit | server/settinggroup.go:213-223 | copies the group into every edit view |
| SettingGroups.Manager.Confirm | server/settinggroup.go:224-237 | copies every edit view into the group, and into the active view if it is active |
| SettingGroups.Manager.SeedGroups | server/settinggroup.go:133-151 | the last seed of each group and setting, those of no group passed by |
| SettingGroups.Manager.constructor | server/settinggroup.go:43-82 | every group starts from the attribute's value |
| DataModel.FCTextParses | model/fc.go:81-105 | the text of every constraint, known or kept from the document, reads back as that constraint |
| DataModel.ReadFC | model/fc.go:81-92 | finds the constraint a mnemonic names |
| DataModel.MnemonicsSpelled | model/fc.go:50-55 | the mnemonics are those of IEC 61850-7-2 |
| DataModel.ReadsMnemonic | model/fc.go:81-92 | a mnemonic is known in either case and with blanks around it |
| Access.LeafConforms | server/access.go:407-466 | a leaf's value is of the type its description gives iff its arrays are homogeneous, it has no structure members, and integers fit their width |
| Access.AttributeConforms | server/access.go:219-252 | every attribute of a sound tree has a value, of the attribute's described type |
| Access.ObjectConforms | server/access.go:187-215 | an object has a value under a constraint iff an attribute below it has the constraint, and it is of the object's described type |
| Access.ObjectConformsExactly | server/access.go:187-215 | of any tree: an object under a constraint reads as a value of its described type iff an attribute below it has the constraint and every leaf under it has a known type and a value that fits |
| Access.AttributeExactly | server/access.go:219-252 | of any tree: an attribute has a value of its described type iff every leaf has a known type and a value that fits, the latter not needed in an array of no elements |
| Access.PassedByIsMisaligned | server/access.go:206-209 | an object with an uncomposable object below it reads as a structure one member short of its description |
| Access.LeafDescribed | server/access.go:407-466 | the width of an integer by its basic type, and the announced lengths of strings |
| Access.AttributeLeaves | server/access.go:219-252 | of any tree: an attribute that has a value reads, leaf by leaf in the order of the document and once for each array element, as what its leaves hold |
| Access.ObjectLeaves | server/access.go:189-215 | of any tree: an object has a value under a constraint iff it is composable, and then reads as what the leaves under the constraint hold |
| Access.ReadAttribute | server/access.go:219-252 | composes the value of an attribute, or none |
| Access.ReadObject | server/access.go:189-215 | composes the value of an object under a constraint, or none |
| Access.DescribeAttribute | server/access.go:407-423 | composes the type of an attribute |
| Access.DescribeObject | server/access.go:392-405 | composes the type of an object under a constraint |
| NameSpace.NamesAreServed | server/access.go:14-78 | every name listed for a sound device leads back to its node and, from the level of constraints down, to a value and a type, the value conforming to the type |
| NameSpace.ReadableIsListed | server/access.go:109-185 | every identifier below a constraint that can be read is in the list |
| NameSpace.ConstraintServed | server/access.go:35-50 | everything listed under one constraint of a node is served |
| NameSpace.NodeNameHasNoValue | server/access.go:109-114 | the name of a node alone is listed and has a type, and no value |
| NameSpace.LocateFurther | server/access.go:135-172 | one part more leads one level down from where the identifier led |
| NameSpace.SplitExtend | server/access.go:109-111 | joining a plain name with a dollar sign and splitting are inverse |
| NameSpace.ListDevice | server/access.go:14-53 | builds the list of names |
| NameSpace.AppendAttrNames | server/access.go:69-78 | appends the names below an attribute |
| NameSpace.AppendObjectNames | server/access.go:55-67 | appends the names below an object |
| NameSpace.Walk | server/access.go:135-172 | the descent through objects, then attributes |
| Reads.LeafReads | server/access.go:163-185 | of any tree: a name that leads to a leaf reads as what the leaf holds, as false if it holds nothing, and as type-inconsistent if its type is unknown too |
| Reads.ReadsWhatIsHeld | server/access.go:109-185 | of any tree: whatever is read by name is, leaf by leaf, what the leaves below the name hold |
| Reads.LeavesAreRead | server/access.go:14-185 | every leaf of a sound node is listed under the name of its place and that name reads as exactly what it holds |
| Reads.MembersAreRead | server/access.go:109-423 | the k-th member of what a listed name reads as is what the name of the k-th component of its type reads as, with that type, in every element of an array |
| Reads.ComponentsAreListed | server/access.go:392-405 | the components of an object's type are named, in order, as the list names what is one level below it |
| Reads.MembersAreListed | server/access.go:407-423 | the same of an attribute's type |
| Reads.ConstraintsAreListed | server/access.go:347-390 | the same of a node's type, whose components are its constraints |
| Browsing.DeviceDistinct | server/access.go:14-78 | the names listed for a sound device are distinct and not empty |
| Browsing.ListedIsReadable | server/handler.go:267-298 | a read of a listed name succeeds with a value of its described type that is what the leaves below it hold; one that selects answers a text, which is of that type iff the name is described as a text |
| Browsing.IsSelect | server/control.go:454-466 | whether an identifier's last control structure is SBO, under CO |
| Browsing.SelectsExactly | server/control.go:454-466 | that is: SBO comes after the third part and no Oper, SBOw, Cancel or SBO after it |
| Browsing.DeviceIsBrowsed | server/handler.go:267-298 | a client that lists a sound device over any PDU size its names fit, from response octets, gets exactly the names the server has, each once; every one from the level of constraints down reads as a value of its described type, or selects a control and reads as a text |

## Left out

- MmsData.RoundTrip: floating point values are their octets, so the quieting of signalling NaNs and the equality of NaNs are not modelled; nil children, which the encoder skips, are not values of the model.
- MmsTypeSpec.TypeSpecRoundTrip: an array type always has an element type; a nil one is not modelled.
- GoosePublisher.AttemptedSendsSequential: the refusal of intervals that are not positive when a publisher is made is not modelled.
- GooseSubscriber.LossFlaggedExactly: the frames are those of one publisher; one restarted into the same stNum is another.
- ReplayTable.EvictionNeutral: the table's capacity is the code's, senders are addresses and key identifiers as one key, and differences of times do not saturate.
- Spdu.RoundTrip: HMAC and AES-GCM are any functions with the right lengths for which opening inverts sealing; the initialisation vector is a parameter. What opening gives for a vector of another length, as in version 1 under an encrypting key, is left to them.
- ServerConn.ResponseOrder: a request whose response a handler deferred is answered from another goroutine, so its PDUs may precede it; a write that fails ends the association, which is not modelled.
- Control.CarriedOutExactly: that an operate is carried out is an event; the status value it sets is not modelled.
- Control.ExecutionsLicensed: requests arrive parsed (the splitting of item names and the decoding of the Oper structure are not modelled), and the clock is read once for each.
- Termination.TerminatedOnce: the reports themselves and the LastApplError are not built.
- Listing.ReplyIsRead: the names of a device take less than 2 GiB; the confirmed PDU around the response, matched by its invokeID, is not read.
- Listing.JournalComplete: no query a client of this library sends carries a count; pages are taken as decoded; entries are opaque elements with an identifier and a time; the decoding of their variables and BinaryTime are not modelled, and parsing a query is not either.
- Paging.PagesFit: the service tag is below 128 and the elements have no tag of 2^28 or more, as in every list the server sends.
- KeyKeeper.StoreFollowsMember: the store belongs to one member; the registration exchange, its timers and its retries are not modelled, only the callbacks in any order.
- SettingGroups.WriteRefines: whether a value fits its attribute and the application agrees is given with the request; LActTm and ResvTms are not modelled; SE is among the writable constraints, as it is by default.
- NameSpace.NamesAreServed: blanks and letter case of constraint mnemonics are those of ASCII; the order of constraints is the sorted one, the insertion sort that makes it is not modelled.
- DataModel.FCTextParses: numbers that are none of the library's constants for constraints are not modelled; no text stands for them.
- Access.LeafConforms: the declared lengths of strings and octet strings are not compared, as the server does not compare them either.
- Decoder liberties (leading zeros of high tag numbers, lengths longer than needed) are part of the grammar that is accepted.
- Go's int is taken as 64 bits; slices are values, so aliasing between a decoded content and its input is not modelled.
- The supervision timers of a subscriber, sampled values, Ethernet and UDP framing, and all sockets.
- COTP, session, presentation and ACSE, TLS and the security profiles of IEC 62351.
- Report and log control blocks, data sets, file services, service tracking, substitution and blocking.
- SCL parsing but for the step that applies the active setting group, the client's model retrieval, and the command line tools.
- The GDOI exchange (phase 1, GROUPKEY-PULL) and its payload formats.
