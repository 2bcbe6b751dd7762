# Robot soccer stack: verified model

A Dafny model of the algorithmic core of the robot soccer software: the nanopb wire codec that
carries every robot command, the k-d tree, the bang-bang trajectory solver, the path planner, the
omni-wheel kinematics and the host handshake; and of two vendored routines with a core of their own,
the DEFLATE encoder in `stb_image_write.h` and Eigen's band and packed triangular BLAS. Everything is
stated for all inputs and verified by Dafny 4.11.

    dafny verify dfyconfig.toml

## How it is built

Where the source changes something step by step, the model does too: streams, iterators, tree nodes,
queues, bit buffers, trajectories and planners are classes, loops are loops, and BLAS works in place
on an array. Each such method is proved against a function or predicate on values, and the main
results are lemmas about those functions, so they hold of what the methods leave behind.

| files | what they hold |
|---|---|
| `Common`, `Reals` | options, bytes, sequences; products, squares and roots of exact reals |
| `PbVarint`, `PbStream`, `PbWire` | base-128 numbers, zigzag, streams over buffers, wire primitives |
| `PbMessage`, `PbEncode`, `PbParse` | descriptors, structs, what agrees with what; the encoding and the parse as functions |
| `PbRoundTrip`, `PbUnknown`, `PbOverflow`, `PbLayout` | decode after encode; unknown fields; messages too long to be read back; why structs laid out as in C are not |
| `PbSpec` | a reader written from the Protocol Buffers Encoding specification, with its own constants, and what it must find in the encoding of a struct |
| `PbReads`, `PbMeans`, `PbSkip` | the encoder, the decoder and skipping against that reader |
| `PbNewer`, `PbStored`, `PbComplete`, `PbCommand` | senders with more fields; which structs encode, and that decoded ones do; what an accepted message must contain; the robot command |
| `PbEncoder`, `PbIter`, `PbDecoder`, `PbSerializer` | the imperative encoder, field iterator, decoder, and the application's 256-byte pair |
| `ZBits`, `ZInflate` | bit strings; a reader written from RFC 1951 sections 3.2.3 to 3.2.6 and RFC 1950 section 2.2 |
| `ZDeflate`, `ZCompress`, `ZContainer` | the bit writer, match finder and tokens, and the whole `stbi_zlib_compress` |
| `KdTree`, `KdBuild`, `KdQueue`, `KdSearch`, `KdOrder` | split trees, heap nodes, the bounded queue, the three searches, comparison with a sorted scan |
| `TrajProfile`, `TrajLoop`, `TrajMotion`, `TrajCurve`, `TrajTime`, `TrajSync` | one segment at a time; when the loop ends and where; whole profiles over time; how velocity and position belong together; how long they take; the two-axis bisection |
| `Rrt`, `Kinematics`, `HostComm`, `HostProgress` | planner, least squares, protocol steps and what they deliver |
| `BlasScalar`, `BlasCore`, `BlasBand`, `BlasPacked` | fields with a conjugation, triangular matrices, `tbmv`/`tbsv`, `tpmv`/`tpsv` |

## Main results

- **Codec.** `PbRoundTrip.MsgRoundTrip`, `PbOverflow.MsgRoundTripIff` and `PbUnknown.RoundTripAmongUnknown`, over arbitrary
  well-formed descriptors nested to any depth; `PbLayout.LaidRoundTrip`, without a bound on lengths, over
  those laid out as in C; `PbEncoder.EncodeMessage` with one contract for sizing
  and writing; `PbDecoder.DecodeInner` equal to the declarative parse on every input.
- **Wire format.** Against a reader of the specification that shares no constant with the codec:
  `PbReads.EncodeReads` for every struct that encodes, `PbMeans.RecordMeans` for the exact outcome of
  every record, `PbSkip.RecordsUnknown` for fields the receiver lacks.
- **Evolution and safety.** `PbNewer.NewerSender` for senders with more fields at any depth,
  `PbStored.DecodedContained` and `PbStored.Relayed` for whatever bytes arrive,
  `PbComplete.AcceptedIff` for what a message must contain.
- **Compression.** `ZContainer.Compress` against the independent reader.
- **Search.** `KdBuild.KDTree` keeps its index over every history; the pruned searches equal a linear
  scan (`KdSearch.NnSearch`, `KdSearch.RadiusSearch`, `KdOrder.KNearestIsFront`).
- **Motion.** `TrajLoop.StopsIff`, `TrajLoop.RestsIff` and `TrajLoop.Lands` for termination, rest and landing,
  `TrajMotion.ProfileShape` for the exact condition of a proper profile, `TrajCurve.MeanVelocity`,
  `TrajCurve.ProfileRate` and `TrajCurve.EndsAsAsked` for the motion itself, `TrajTime.FasterIff`
  for the monotonicity the bisection rests on, and `TrajSync.BracketEncloses`, `TrajSync.Bisect` and
  `TrajSync.MarginsIff` for the bisection.
- **Planner, kinematics, handshake.** `Rrt.Plan` with `Rrt.ExtendsTowards`, `Kinematics.LeastSquares` with
  `Kinematics.RoundTrip`, `HostComm.EveryRun` for safety with `HostProgress.Conserved` and
  `HostProgress.Progress` for delivery.
- **BLAS.** `BlasBand.TbmvThenTbsv`, `BlasPacked.TpmvThenTpsv` and their converses, over any field with a
  conjugation and for all three readings of the matrix.

## What turned out not to hold

Each comes with a failing input, and with the exact condition unless it says "one way".

- `stbi_zlib_compress` of no bytes takes the stored fallback, which then writes no block; the result is
  not a zlib stream (`ZContainer.Compress`, `ZContainer.EmptyUnreadable`, `ZContainer.NotKeptWhenEmpty`).
- The serializer reports failure as an empty string, and an empty string is a legal message: the
  receiver accepts it as the all-default command (`PbSerializer.DeliveredIff`, `PbSerializer.LongBlobLost`).
- Lengths are written as 64-bit numbers and read as 32-bit ones, so a struct whose nested message has
  2^32 bytes or more encodes but does not decode (`PbOverflow.MsgRoundTripIff`; one
  way from 0x780000000 bytes on, where the decoder can take the upper bits of a length for a sign). With
  16-bit sizes that takes thousands of nesting levels: up to 2849 it cannot happen
  (`PbLayout.LaidRoundTrip`), with 32768 it does (`PbLayout.TooLong`).
- `solveAll` loops for ever on some inputs when the velocity limit is below the tolerance
  (`TrajLoop.StopsIff`, `TrajLoop.NeverStops`); the guard `iter > 1000` never fires because `iter` is never incremented.
- With a limit below or at the tolerance a profile can end moving, after one segment or after
  any number of them (`TrajLoop.RestsIff`, `TrajLoop.SlowStartEndsMoving`, `TrajLoop.LimitAtTolerance`,
  `TrajLoop.WeakTurns`).
- With an acceleration limit below the tolerance faster limits can take longer, in two ways
  (`TrajTime.FasterIff`, `TrajTime.FasterLater`, `TrajTime.FasterLaterCreeping`).
- A start just below the velocity limit can get a cruise of negative duration (`TrajMotion.NotCruisable`,
  exact condition in `TrajMotion.ProfileShape`).
- The bisection can hang, even in its first iteration (`TrajSync.SlowDiagonal`); no move makes it hang
  if and only if both speed shares at the two extreme angles are at least the tolerance
  (`TrajSync.MarginsIff`).
- A leg of length zero is accepted without looking at any obstacle (`Rrt.FreeMeansClear`,
  `Rrt.CentreIsFree`).

## Model

| member | source | states |
|---|---|---|
| `PbVarint.VarintAtMostTen` | libs/msg/nanopb/pb_encode.c:573-623 | the canonical base-128 form of every 64-bit value has at most ten bytes, so the encoder's ten-byte buffer is enough |
| `PbVarint.VarintCanonical` | libs/msg/nanopb/pb_encode.c:573-605 | every byte but the last has its top bit set, the last has not, and a form of several bytes does not end in a zero byte: no shorter form exists |
| `PbVarint.Decode64Fits` | libs/msg/nanopb/pb_decode.c:230-250 | whatever the 64-bit decoder accepts is below 2^64: no bit is shifted out |
| `PbVarint.VarintRoundTrip64` | libs/msg/nanopb/pb_decode.c:230-250 | the 64-bit decoder gives back every 64-bit value with exactly the bytes after it |
| `PbVarint.Decode32Agrees` | libs/msg/nanopb/pb_decode.c:171-227 | on every byte string: if the 32-bit decoder succeeds so does the 64-bit one, with the same leftover and a value equal mod 2^32; conversely a 64-bit result below 2^32 is what the 32-bit decoder returns |
| `PbVarint.VarintReadsIff` | libs/msg/nanopb/pb_decode.c:171-227 | the 32-bit decoder reads a 64-bit value's canonical form back if and only if the value is below 2^32 |
| `PbVarint.OverflowRejected` | libs/msg/nanopb/pb_decode.c:192-215 | from 2^32 up to where bits 31 to 34 can look like a sign (0x780000000) it fails |
| `PbVarint.ZigZagInterleaves` | libs/msg/nanopb/pb_encode.c:625-635 | zigzag sends 0, -1, 1, -2, … to 0, 1, 2, 3, …, computed on two's complement patterns |
| `PbVarint.ZigZagInverse` | libs/msg/nanopb/pb_decode.c:1391-1403 | zigzag encode and decode undo each other both ways on all 64-bit values |
| `PbStream.OStream.Write` | libs/msg/nanopb/pb_encode.c:53-105 | appends exactly the bytes given, or fails without exceeding the limit; on a sizing stream it only counts. Sizing and writing satisfy one contract |
| `PbStream.OStream.Window` | libs/msg/nanopb/pb_encode.c:753-764 | the substream for a submessage sees the parent's buffer and position with the payload size as its limit |
| `PbStream.Then` | libs/msg/nanopb/pb_encode.c:84-105 | two steps on a stream compose into one step that appends both texts, also when the second fails: the law every encoder is built from |
| `PbStream.IStream.Read` | libs/msg/nanopb/pb_decode.c:68-120 | fails exactly when fewer bytes are left; otherwise returns the next bytes; position plus bytes left is conserved |
| `PbStream.IStream.ReadByte` | libs/msg/nanopb/pb_decode.c:124-140 | the same law for one byte |
| `PbWire.EncodeVarint` | libs/msg/nanopb/pb_encode.c:607-623 | writes the canonical form of any 64-bit value, on a buffer and on a sizing stream alike |
| `PbWire.FillVarint` | libs/msg/nanopb/pb_encode.c:573-605 | the loop over 32-bit halves fills the buffer with the canonical form of low + 2^32·high |
| `PbWire.EncodeSVarint` | libs/msg/nanopb/pb_encode.c:625-635 | writes the varint of the zigzag value |
| `PbWire.LittleEndianRoundTrip` | libs/msg/nanopb/pb_decode.c:1405-1452 | four and eight byte little-endian numbers read back for every value that fits |
| `PbWire.EncodeTag` | libs/msg/nanopb/pb_encode.c:675-680 | writes the key tag·8 + wire type as a varint |
| `PbWire.EncodeString` | libs/msg/nanopb/pb_encode.c:716-722 | writes the length as a varint and then the bytes |
| `PbWire.DecodeVarint` | libs/msg/nanopb/pb_decode.c:230-250 | the shifting loop computes the declarative 64-bit parse on every input, success and failure |
| `PbWire.DecodeVarint32` | libs/msg/nanopb/pb_decode.c:171-227 | the loop with its overflow and sign-extension checks computes the declarative 32-bit parse on every input; the result is below 2^32 |
| `PbWire.SkipVarint` | libs/msg/nanopb/pb_decode.c:253-262 | succeeds exactly when a byte without its top bit is left and stops behind the first one, conserving position plus bytes left |
| `PbWire.SkipString` | libs/msg/nanopb/pb_decode.c:264-276 | succeeds exactly when the declared payload is there and stops behind it |
| `PbWire.SkipField` | libs/msg/nanopb/pb_decode.c:318-333 | passes over what AfterField says and fails on every other wire type, never moving past the window; AfterField is tied to the specification by PayloadSkipped and to the encoder by ValueSkipped |
| `PbWire.MakeSubstream` | libs/msg/nanopb/pb_decode.c:383-396 | succeeds exactly when the declared payload is there; the substream holds the payload and nothing else |
| `PbWire.CloseSubstream` | libs/msg/nanopb/pb_decode.c:398-411 | however much of the substream was read, the parent continues exactly behind the declared payload |
| `PbMessage.DefaultFresh` | libs/msg/nanopb/pb_decode.c:906-1021 | setting defaults on any old contents gives a struct of the right shape in which everything encodes as absent |
| `PbMessage.ZeroFresh` | libs/msg/src/EncodingDecoding.cpp:40-41 | the all-zero struct is such a struct, too |
| `PbRoundTrip.MsgRoundTrip` | libs/msg/nanopb/pb_decode.c:1027-1229 | for every well-formed descriptor, every legal struct that encodes with every nested message shorter than 2^32 bytes, and every old contents of the destination: decoding the encoding succeeds and gives a struct equal on its meaningful part (array elements up to count, strings up to NUL, active union members, proto3 zero fields that were not written), through all nesting levels |
| `PbRoundTrip.LengthReadsIff` | libs/msg/nanopb/pb_decode.c:383-396 | a length prefix is read back if and only if the payload is shorter than 2^32 bytes: the exact reach of the round trip |
| `PbRoundTrip.ScalarRoundTrip` | libs/msg/nanopb/pb_decode.c:1460-1530 | every scalar type and width reads back its own encoding, negative numbers included |
| `PbRoundTrip.ValueRoundTrip` | libs/msg/nanopb/pb_decode.c:417-486 | every value whose nested messages are shorter than 2^32 bytes reads back over any old value, leaving what follows |
| `PbRoundTrip.PackedRoundTrip` | libs/msg/nanopb/pb_decode.c:501-530 | the elements of a packed array are read back in order and the count is right |
| `PbRoundTrip.FieldsRoundTrip` | libs/msg/nanopb/pb_decode.c:1065-1150 | the invariant over fields: after the first i records the first i fields agree and the others are still absent |
| `PbRoundTrip.DefaultMsgSame` | libs/msg/nanopb/pb_encode.c:244-358 | a proto3 value the encoder skips is indistinguishable from a default one, recursively |
| `PbRoundTrip.ShortMessageFits` | libs/msg/nanopb/pb_encode.c:724-777 | a message below 2^32 bytes has no longer nested message, so every such message is covered |
| `PbOverflow.ValueFails` | libs/msg/nanopb/pb_decode.c:383-396 | a value whose own length, or that of a message inside it, is from 2^32 up to 0x780000000 is refused by the decoder |
| `PbOverflow.FieldsFail` | libs/msg/nanopb/pb_decode.c:1065-1150 | and so is every message it is in: decoding stops with an error at that record, whatever was decoded before |
| `PbOverflow.MsgRoundTripIff` | libs/msg/nanopb/pb_decode.c:1027-1229 | for nested messages below 0x780000000 bytes: the round trip succeeds if they are all shorter than 2^32 bytes, and if not decoding fails |
| `PbLayout.MsgLength` | libs/msg/nanopb/pb_encode.c:512-534 | for a struct whose sizes add up as a C compiler lays them out: every byte of it in use (of a union, the chosen member) becomes at most 23 bytes of encoding for each level of nesting |
| `PbLayout.NestedLength` | libs/msg/nanopb/pb_encode.c:724-777 | so a nested message is bounded by the data_size of its field and its depth |
| `PbLayout.LaidRoundTrip` | libs/msg/nanopb/pb_decode.c:1027-1229 | for such descriptors nested up to 2849 levels the round trip holds for every struct that encodes, without any bound on lengths |
| `PbLayout.HolderLaid` | libs/msg/nanopb/pb.h:804-812 | the sizes of the descriptor that fails add up likewise, and fit 16 bits |
| `PbLayout.TooLong` | libs/msg/nanopb/pb_encode.c:736-777 | the concrete struct that fails: 65535 chains, each a flag inside 32768 one-byte structs one inside the other; it encodes, and the decoder refuses the encoding |
| `PbUnknown.UnknownFieldsIgnored` | libs/msg/nanopb/pb_decode.c:1065-1150 | records with tags the descriptor lacks, put in any number at any record boundaries, change neither success nor the decoded struct |
| `PbUnknown.RoundTripAmongUnknown` | libs/msg/nanopb/pb_decode.c:318-333 | the round trip, under the same bound on nested messages, with such records between the records of an encoding, also between two elements of a repeated or fixed-count array |
| `PbUnknown.EncodedBoundaries` | libs/msg/nanopb/pb_encode.c:512-534 | decoding an encoding may stop after every record and every array element; the records join to the encoding |
| `PbUnknown.FieldsAppend` | libs/msg/nanopb/pb_decode.c:1065-1150 | decoding is a fold: the records of a prefix can be decoded first |
| `PbUnknown.RecordSuffix` | libs/msg/nanopb/pb_decode.c:1076-1150 | no parser looks beyond the record it accepts |
| `PbUnknown.UnknownSkipped` | libs/msg/nanopb/pb_decode.c:318-333 | unknown records alone leave the decoder's whole state as it was |
| `PbSkip.NumbersAgree` | libs/msg/nanopb/pb_decode.c:171-250 | on every byte string the specification's reader accepts: the 64-bit decoder reads the same number when it is below 2^64 and fails otherwise, and the 32-bit one reads it when it is below 2^32 |
| `PbSkip.PayloadSkipped` | libs/msg/nanopb/pb_decode.c:318-333 | every payload the specification's reader reads, of wire type 0, 1, 2 or 5 and shorter than 2^32 bytes, is passed over whole: 8 bytes for type 1, 4 for type 5 |
| `PbSkip.NothingElseSkipped` | libs/msg/nanopb/pb_decode.c:318-333 | and no other wire type is passed over |
| `PbSkip.ValueSkipped` | libs/msg/nanopb/pb_decode.c:318-333 | whatever the encoder writes as the value of any field is passed over by its wire type, whatever follows |
| `PbSkip.FieldUnknown` | libs/msg/nanopb/pb_encode.c:418-469 | everything a sender writes for a field the receiver lacks is a sequence of unknown records to it |
| `PbSkip.RecordsUnknown` | libs/msg/nanopb/pb_decode.c:1076-1115 | so is every sequence of records of the specification, by any sender, whose numbers the receiver lacks |
| `PbNewer.NewerSender` | libs/msg/nanopb/pb_decode.c:1065-1150 | forward compatibility: a sender whose descriptor has more fields, anywhere and at any depth of nesting, encodes; the receiver decodes the shared fields, over any old contents of the destination |
| `PbNewer.FieldsAlike` | libs/msg/nanopb/pb_decode.c:1065-1150 | the invariant: from the same state the receiver does with the rest of the encoding what it does with the encoding of the shared part |
| `PbNewer.NestedAlike` | libs/msg/nanopb/pb_decode.c:1622-1672 | also inside a nested message, whose bytes and length differ |
| `PbNewer.NothingNew` | libs/msg/nanopb/pb_encode.c:335-347 | also when only fields the receiver lacks make the sender write a nested message that is otherwise unset |
| `PbNewer.Shrinks` | libs/msg/nanopb/pb_encode.c:512-534 | the encoding of the shared part is no longer, and nested messages within reach stay so |
| `PbReads.EncodeReads` | libs/msg/nanopb/pb_encode.c:512-534 | for every struct that encodes: a reader written from the Protocol Buffers Encoding specification splits the bytes into the records of the set fields, in order and without anything else, each with its number, its wire type 0, 1, 2 or 5 and its value as payload (two's complement, zigzag, little-endian, counted bytes, nested records) |
| `PbReads.FieldReads` | libs/msg/nanopb/pb_encode.c:418-469 | the records of one field: one if it is set, one per element of an array, one for a whole packed array |
| `PbReads.PackedReads` | libs/msg/nanopb/pb_encode.c:145-196 | a packed payload splits into the payloads of its elements |
| `PbReads.ValueReads` | libs/msg/nanopb/pb_encode.c:362-403 | the payload of one value, by the wire type the specification gives its type |
| `PbReads.DefaultIsUnset` | libs/msg/nanopb/pb_encode.c:244-358 | a proto3 field is left out if and only if it is unset: zero, empty, or a struct of which nothing is set |
| `PbReads.Decode64Reads` | libs/msg/nanopb/pb_decode.c:230-250 | the 64-bit decoder against the same reader, from any byte on |
| `PbMeans.RecordMeans` | libs/msg/nanopb/pb_decode.c:1065-1150 | for every record of the specification within the decoder's widths, of a field the receiver has, the exact outcome: accepted if and only if the bookkeeping allows it and the payload is of the field's kind and fits; then the field holds what the payload means, an array has grown by it, a union is switched, and nothing else has changed |
| `PbMeans.OtherRecord` | libs/msg/nanopb/pb_decode.c:1110-1115 | for every other record nothing happens |
| `PbMeans.SlotMeans` | libs/msg/nanopb/pb_decode.c:488-576 | the same for one field: replaced, built on, switched or grown |
| `PbMeans.ValueMeans` | libs/msg/nanopb/pb_decode.c:417-486 | a value is stored if and only if its payload is of the field's own kind and fits: bytes and strings with room to spare, fixed-length bytes exactly or not at all |
| `PbMeans.ScalarMeans` | libs/msg/nanopb/pb_decode.c:1460-1530 | a number is accepted if and only if the field has room for what it means: unsigned as it is, signed as two's complement at 32 or 64 bits, zigzag undone |
| `PbMeans.ScalarSound` | libs/msg/nanopb/pb_decode.c:1460-1530 | and on every byte string it is taken only as that |
| `PbMeans.PackedMeans` | libs/msg/nanopb/pb_decode.c:501-530 | a packed array likewise: accepted if and only if every element fits and there is room for all |
| `PbStored.EncodesIff` | libs/msg/nanopb/pb_encode.c:512-534 | a struct encodes if and only if what is written of it fits: bytes within their field, strings with a NUL, counts within their array, nested lengths below 2^64 |
| `PbStored.DecodedContained` | libs/msg/nanopb/pb_decode.c:1027-1196 | whatever the bytes, every value of a decoded struct stays within its storage, through all nesting levels |
| `PbStored.Relayed` | libs/msg/nanopb/pb_decode.c:1198-1229 | so whatever was received over a cleared struct can be sent on, and arrives as it is |
| `PbComplete.AcceptedIff` | libs/msg/nanopb/pb_decode.c:1152-1193 | a message is accepted if and only if its records are, every required field with fewer than 64 required ones before it has a record, and no fixed-count array is broken off |
| `PbComplete.WholeOrNone` | libs/msg/nanopb/pb_decode.c:1117-1139 | in an accepted message a fixed-count array is written at every position or has no record at all |
| `PbComplete.RequiredCount` | libs/msg/nanopb/pb_decode.c:1141-1146 | the index of a required field is the number of required ones before it |
| `PbEncoder.EncodeInteger` | libs/msg/nanopb/pb_encode.c:788-834 | booleans and integers of all widths and signs are written as the declarative encoding |
| `PbEncoder.EncodeFixed` | libs/msg/nanopb/pb_encode.c:836-859 | fixed-width numbers likewise |
| `PbEncoder.EncodePayload` | libs/msg/nanopb/pb_encode.c:861-880 | a payload is written behind its length or not at all |
| `PbEncoder.EncodeText` | libs/msg/nanopb/pb_encode.c:882-933 | a string is written up to its NUL, and an unterminated one fails |
| `PbEncoder.EncodeSubmessage` | libs/msg/nanopb/pb_encode.c:724-777 | sizing pass, length prefix and writing pass together write exactly the submessage behind its true length; the "submsg size changed" branch is proved dead |
| `PbEncoder.EncodeBasicField` | libs/msg/nanopb/pb_encode.c:362-403 | key and value of one record, as the specification reads it (ValueReads) |
| `PbEncoder.PackedSize` | libs/msg/nanopb/pb_encode.c:151-172 | the size computed for a packed array is the length of what is then written |
| `PbEncoder.EncodePackedArray` | libs/msg/nanopb/pb_encode.c:145-196 | a packed array is its length and its elements, on both kinds of stream |
| `PbEncoder.EncodeUnpackedArray` | libs/msg/nanopb/pb_encode.c:197-237 | an array that cannot be packed is one record per element |
| `PbEncoder.EncodeArrayField` | libs/msg/nanopb/pb_encode.c:128-240 | empty arrays write nothing and an excessive count fails |
| `PbEncoder.EncodeOneField` | libs/msg/nanopb/pb_encode.c:418-469 | required, optional, proto3 and union members are written exactly when present |
| `PbEncoder.EncodeMessage` | libs/msg/nanopb/pb_encode.c:512-534 | the loop over an iterator writes exactly the declarative encoding; the same contract on sizing and buffer streams, so both passes agree at every nesting level |
| `PbEncoder.EncodedSize` | libs/msg/nanopb/pb_encode.c:557-566 | the size reported is exactly the length of the encoding, and fails exactly when encoding does |
| `PbEncoder.EncodeToBuffer` | libs/msg/nanopb/pb_encode.c:512-534 | a buffer is enough if and only if it has the encoding's length; then it holds the encoding |
| `PbIter.UnpackPack` | libs/msg/nanopb/pb_common.c:17-72 | reading a descriptor packed by the width 1, 2, 4 or 8 macro within its bounds gives back tag, type, sizes and offsets |
| `PbIter.FieldWords` | libs/msg/nanopb/pb_common.c:8-120 | field i of a packed descriptor starts at the sum of the preceding widths and unpacks to field i |
| `PbIter.AdvanceSums` | libs/msg/nanopb/pb_common.c:136-153 | the three increments taken from one packed word are exactly the next prefix sums |
| `PbIter.FieldIter.constructor` | libs/msg/nanopb/pb_common.c:156-164 | begins standing on field 0 |
| `PbIter.FieldIter.Load` | libs/msg/nanopb/pb_common.c:8-120 | loading fails exactly on an empty descriptor and otherwise stands on the field at index |
| `PbIter.FieldIter.AddPrevious` | libs/msg/nanopb/pb_common.c:142-152 | from the packed words of the field just left, running indices that were the sums over the fields before it become the sums over the fields before the next one |
| `PbIter.FieldIter.Advance` | libs/msg/nanopb/pb_common.c:122-154 | keeps the running indices equal to prefix sums, with wrap-around |
| `PbIter.FieldIter.Next` | libs/msg/nanopb/pb_common.c:188-193 | moves to the next field and reports false exactly on wrap-around |
| `PbIter.FieldIter.FindTag` | libs/msg/nanopb/pb_common.c:195-244 | from any position terminates, returns true exactly when the tag exists and then stands on it, and otherwise is back on the starting field |
| `PbIter.FieldIter.Search` | libs/msg/nanopb/pb_common.c:205-243 | the circular search loop of FindTag |
| `PbDecoder.DecodeNumber` | libs/msg/nanopb/pb_decode.c:1460-1530 | computes the declarative parse of a scalar on every input, range errors included |
| `PbDecoder.DecodeBytes` | libs/msg/nanopb/pb_decode.c:1532-1570 | a bytes field, with its overflow error |
| `PbDecoder.DecodeText` | libs/msg/nanopb/pb_decode.c:1572-1620 | a string field is terminated by NUL and fails when it does not fit |
| `PbDecoder.DecodeFixedBytes` | libs/msg/nanopb/pb_decode.c:1674-1695 | fixed-length bytes: exact size, or empty as all zeros |
| `PbDecoder.DecodeSubmessage` | libs/msg/nanopb/pb_decode.c:1622-1672 | a nested message is decoded from its own payload only, and the parent moves on behind it |
| `PbDecoder.DecodeBasicField` | libs/msg/nanopb/pb_decode.c:417-486 | wire type check and dispatch |
| `PbDecoder.DecodePackedArray` | libs/msg/nanopb/pb_decode.c:501-530 | the packed loop with its overflow check |
| `PbDecoder.DecodeElement` | libs/msg/nanopb/pb_decode.c:500-541 | one more element of an array, or overflow |
| `PbDecoder.DecodeStaticField` | libs/msg/nanopb/pb_decode.c:488-576 | all field kinds, union switching included: exactly the declarative parse of one field, members of a union being separate values |
| `PbDecoder.SetDefaults` | libs/msg/nanopb/pb_decode.c:906-1021 | the loop gives the default struct |
| `PbDecoder.DecodeKnown` | libs/msg/nanopb/pb_decode.c:1117-1149 | the known-field branch with its fixed-count bookkeeping |
| `PbDecoder.DecodeTagged` | libs/msg/nanopb/pb_decode.c:1080-1149 | behind the key: search, then skip or store |
| `PbDecoder.DecodeRecord` | libs/msg/nanopb/pb_decode.c:1065-1150 | one turn of the loop is one declarative record: key, search, skip or store |
| `PbDecoder.DecodeInner` | libs/msg/nanopb/pb_decode.c:1027-1196 | the whole loop is the declarative parse on every input; success means every byte was consumed and every required field was seen |
| `PbDecoder.Decode` | libs/msg/nanopb/pb_decode.c:1198-1229 | the same from a fresh buffer stream |
| `PbSerializer.Serialize` | libs/msg/src/EncodingDecoding.cpp:50-58 | the 256-byte sender: the encoding when it fits and an empty string otherwise |
| `PbSerializer.Deserialize` | libs/msg/src/EncodingDecoding.cpp:39-48 | the receiver: parse over an all-zero struct |
| `PbSerializer.EmptyPayload` | libs/msg/src/EncodingDecoding.cpp:39-48 | an empty payload is accepted as the all-default command exactly when nothing is required |
| `PbSerializer.DeliveredIff` | libs/msg/src/EncodingDecoding.cpp:39-58 | a command arrives as sent if and only if its encoding fits in 256 bytes, or it is the all-default command of a descriptor without required fields: the failure marker is itself a legal message |
| `PbSerializer.LongBlobLost` | libs/msg/src/EncodingDecoding.cpp:39-58 | a concrete loss: a command of one 300-byte field is sent as an empty payload, which the receiver accepts as a command of no bytes |
| `PbCommand.CommandDelivered` | libs/msg/proto/message.proto:3-11 | the robot command: every one there is takes at most 42 bytes and is decoded to exactly the same struct |
| `PbCommand.ForwardBytes` | libs/msg/proto/message.proto:3-11 | vx = 1.0 and nothing else is the five bytes 15 00 00 80 3F |
| `ZContainer.Compress` | libs/external/glfw/deps/stb_image_write.h:895-1022 | the stream, read by a reader written from RFC 1951 and RFC 1950, gives back exactly the input for every non-empty input and every quality, and is unreadable for the empty one |
| `ZContainer.EmptyUnreadable` | libs/external/glfw/deps/stb_image_write.h:984-1000 | the concrete failing input: for no data the fallback writes no block at all |
| `ZContainer.NotKeptWhenEmpty` | libs/external/glfw/deps/stb_image_write.h:984-986 | and for no data the fallback is always taken |
| `ZContainer.StoredReads` | libs/external/glfw/deps/stb_image_write.h:984-999 | stored blocks of any number decode to the data, at any byte alignment |
| `ZContainer.StoredStream` | libs/external/glfw/deps/stb_image_write.h:984-1016 | the whole fallback stream decodes for non-empty data |
| `ZContainer.StoredSize` | libs/external/glfw/deps/stb_image_write.h:985 | the size the encoder compares with is the true size of the fallback, less the header |
| `ZContainer.Store` | libs/external/glfw/deps/stb_image_write.h:987-998 | the loop writes the declarative stored blocks |
| `ZContainer.CompressedReads` | libs/external/glfw/deps/stb_image_write.h:957-978 | the fixed-Huffman block with its padding decodes to the data, whatever follows |
| `ZContainer.DeflateFixed` | libs/external/glfw/deps/stb_image_write.h:913-978 | the compressing pass writes header, block and padding of some sound token list that expands to the data |
| `ZContainer.Pad` | libs/external/glfw/deps/stb_image_write.h:976-978 | padding takes less than a byte and leaves the bit buffer empty |
| `ZContainer.ComputeAdler` | libs/external/glfw/deps/stb_image_write.h:1003-1011 | the deferred-modulo sums are the Adler-32 of RFC 1950 section 2.2 |
| `ZContainer.SumBlock` | libs/external/glfw/deps/stb_image_write.h:1007 | over a block of at most 5552 bytes both 32-bit sums are exact |
| `ZContainer.SumsFit` | libs/external/glfw/deps/stb_image_write.h:1003-1011 | why 5552: from reduced sums a block of that length stays below 2^32 |
| `ZContainer.ReduceLater` | libs/external/glfw/deps/stb_image_write.h:1003-1011 | reducing once per block equals reducing at every byte |
| `ZContainer.Trailer` | libs/external/glfw/deps/stb_image_write.h:1012-1015 | the four bytes are the checksum, most significant first |
| `ZDeflate.SymbolRoundTrip` | libs/external/glfw/deps/stb_image_write.h:884-888 | the four Huffman ranges decode under the fixed code of RFC 1951 section 3.2.6, for all 288 symbols and whatever follows |
| `ZDeflate.BitReverse` | libs/external/glfw/deps/stb_image_write.h:849-857 | writes the code most significant bit first |
| `ZDeflate.BufferRoom` | libs/external/glfw/deps/stb_image_write.h:880-881 | adding at most 13 bits to fewer than 8 never leaves the 32-bit buffer |
| `ZDeflate.BitWriter.Flush` | libs/external/glfw/deps/stb_image_write.h:839-847 | moves whole bytes out without changing the bit string |
| `ZDeflate.BitWriter.Add` | libs/external/glfw/deps/stb_image_write.h:880-881 | appends exactly the low bits, least significant first |
| `ZDeflate.BitWriter.AddCode` | libs/external/glfw/deps/stb_image_write.h:882 | appends a Huffman code most significant bit first |
| `ZDeflate.BitWriter.AddSymbol` | libs/external/glfw/deps/stb_image_write.h:888 | appends the fixed code of a symbol |
| `ZDeflate.ByteOut` | libs/external/glfw/deps/stb_image_write.h:842-844 | shifting a byte out keeps the bit string |
| `ZCompress.TablesStandard` | libs/external/glfw/deps/stb_image_write.h:901-904 | all rows of the four tables tile lengths 3 to 258 and distances 1 to 32767 as RFC 1951 section 3.2.5 says |
| `ZCompress.LengthRoundTrip` | libs/external/glfw/deps/stb_image_write.h:960-962 | every length is read back with its extra bits |
| `ZCompress.DistanceRoundTrip` | libs/external/glfw/deps/stb_image_write.h:963-965 | every distance likewise |
| `ZCompress.TokensRead` | libs/external/glfw/deps/stb_image_write.h:957-974 | reading the bits of any sound token list from an empty output expands it |
| `ZCompress.BlockReads` | libs/external/glfw/deps/stb_image_write.h:957-975 | and the end-of-block symbol stops there |
| `ZCompress.CopyIsMatch` | libs/external/glfw/deps/stb_image_write.h:859-865 | copying back over an overlap reproduces a match, byte by byte |
| `ZCompress.CountMatch` | libs/external/glfw/deps/stb_image_write.h:859-865 | the longest common run, capped at 258 and at the end |
| `ZCompress.FindMatch` | libs/external/glfw/deps/stb_image_write.h:928-933 | a true match inside the window, and no candidate in the bucket is longer |
| `ZCompress.BetterNext` | libs/external/glfw/deps/stb_image_write.h:941-955 | lazy matching looks exactly for a longer match one byte on |
| `ZCompress.Remember` | libs/external/glfw/deps/stb_image_write.h:934-939 | the bucket gets the position and a full one first loses its older half; no other bucket changes |
| `ZCompress.RememberedBelow` | libs/external/glfw/deps/stb_image_write.h:934-939 | so every position in the table stays below the current one |
| `ZCompress.ChooseMatch` | libs/external/glfw/deps/stb_image_write.h:922-955 | a chosen match is the longest of its bucket within the window, of length 3 to 258, distance 1 to 32767 and equal bytes, and the next position has no longer one; none is chosen only when the bucket has none or the next position has a longer one |
| `ZCompress.EmitChosen` | libs/external/glfw/deps/stb_image_write.h:957-970 | the match or a literal goes out and exactly the bytes it stands for are passed |
| `ZCompress.EmitNext` | libs/external/glfw/deps/stb_image_write.h:957-970 | one turn of the main loop moves on and covers more of the data |
| `ZCompress.LengthIndex` | libs/external/glfw/deps/stb_image_write.h:960 | the search loop finds the table row |
| `ZCompress.DistanceIndex` | libs/external/glfw/deps/stb_image_write.h:963 | likewise for distances |
| `ZCompress.EmitLength` | libs/external/glfw/deps/stb_image_write.h:960-962 | writes the length code and its extra bits |
| `ZCompress.EmitDistance` | libs/external/glfw/deps/stb_image_write.h:963-965 | writes the distance code and its extra bits |
| `ZCompress.EmitTokens` | libs/external/glfw/deps/stb_image_write.h:922-975 | the main loop and the tail write the bits of some sound token list that covers the data |
| `ZCompress.EmitTail` | libs/external/glfw/deps/stb_image_write.h:972-974 | the last bytes go out as literals |
| `KdTree.InsertBag` | libs/algo/include/kdTree.h:168-184 | insertion adds one index and loses none |
| `KdTree.InsertSplit` | libs/algo/include/kdTree.h:168-184 | insertion keeps the split order of whole subtrees at every node |
| `KdTree.SplitExtend` | libs/algo/include/kdTree.h:48-52 | appending a point does not disturb the order |
| `KdTree.IndexedInsert` | libs/algo/include/kdTree.h:48-52 | after inserting, the tree holds every index of the longer cloud exactly once, in order |
| `KdTree.LevelsBranch` | libs/algo/include/kdTree.h:151 | halving at the median costs one level |
| `KdTree.AxisBelowDist` | libs/algo/include/kdTree.h:218-244 | a coordinate difference never exceeds the distance: the reason pruning is allowed |
| `KdTree.OneAxis` | libs/algo/include/kdTree.h:218-222 | points that differ on one axis only are as far apart as there |
| `KdTree.AxisShare` | libs/algo/include/kdTree.h:218-222 | moving a point along one axis exchanges that axis's square in the sum |
| `KdTree.DistAlongAxis` | libs/algo/include/kdTree.h:218-222 | so along an axis the distance is the coordinate difference |
| `KdTree.Sides` | libs/algo/include/kdTree.h:238-243 | node, near side and far side are the whole subtree |
| `KdTree.OtherSideFar` | libs/algo/include/kdTree.h:242-243 | every point on the far side is at least as far as the splitting plane |
| `KdBuild.NthElement` | libs/algo/include/kdTree.h:153-154 | the contract of a selection: a permutation of the slice, the median in place, nothing outside touched |
| `KdBuild.PartAtMedian` | libs/algo/include/kdTree.h:150-154 | the slice becomes left part, median and right part, ordered on the axis |
| `KdBuild.BuildRecursive` | libs/algo/include/kdTree.h:147-164 | heap nodes shaped by a median plan of the slice; only the slice is permuted |
| `KdBuild.PlanBag` | libs/algo/include/kdTree.h:147-164 | such a tree holds exactly the slice's indices |
| `KdBuild.PlanSplit` | libs/algo/include/kdTree.h:147-164 | and is split-ordered at every node |
| `KdBuild.PlanHeight` | libs/algo/include/kdTree.h:151 | and is at most floor(log2 n)+1 high |
| `KdBuild.Join` | libs/algo/include/kdTree.h:156-161 | a node over two built halves |
| `KdBuild.InsertRecursive` | libs/algo/include/kdTree.h:168-184 | relinks in place to exactly the declarative insertion |
| `KdBuild.KDTree.constructor` | libs/algo/include/kdTree.h:284-285 | starts empty |
| `KdBuild.KDTree.Build` | libs/algo/include/kdTree.h:27-36 | from any state: a valid index of the new points, of logarithmic height |
| `KdBuild.KDTree.Clear` | libs/algo/include/kdTree.h:40-44 | empties the tree |
| `KdBuild.KDTree.Insert` | libs/algo/include/kdTree.h:48-52 | any valid tree stays valid with the point appended, so every history of build and insert does |
| `KdQueue.BoundedPriorityQueue.constructor` | libs/algo/include/kdTree.h:122 | starts empty with its bound |
| `KdQueue.BoundedPriorityQueue.Push` | libs/algo/include/kdTree.h:124-130 | inserts before the first greater element and cuts at the bound |
| `KdQueue.InsertSorted` | libs/algo/include/kdTree.h:125-127 | insertion keeps the order |
| `KdQueue.PushHolds` | libs/algo/include/kdTree.h:124-130 | if the queue held the k nearest of the points seen, it does so after one more |
| `KdQueue.SkipHolds` | libs/algo/include/kdTree.h:260-262 | and after a pruned subtree |
| `KdSearch.Distance` | libs/algo/include/kdTree.h:218-222 | the loop computes the Euclidean distance |
| `KdSearch.NnCorrect` | libs/algo/include/kdTree.h:226-244 | the pruned search returns the minimum over the whole subtree |
| `KdSearch.RadiusCorrect` | libs/algo/include/kdTree.h:267-282 | the pruned search adds exactly the indices strictly within the radius, each as often as it occurs |
| `KdSearch.KnnCorrect` | libs/algo/include/kdTree.h:248-263 | the pruned search with the bounded queue keeps the k nearest of everything seen |
| `KdSearch.NnSearchRecursive` | libs/algo/include/kdTree.h:226-244 | the walk over heap nodes computes the pruned search |
| `KdSearch.RadiusSearchRecursive` | libs/algo/include/kdTree.h:267-282 | likewise |
| `KdSearch.KnnSearchRecursive` | libs/algo/include/kdTree.h:248-263 | likewise, editing the queue in place |
| `KdSearch.KnnSearchNear` | libs/algo/include/kdTree.h:251-258 | its first half, the node and the near side |
| `KdSearch.NnSearch` | libs/algo/include/kdTree.h:68-77 | on any valid tree: no point is nearer than the answer, which is attained; nothing is found exactly when no point is nearer than the initial bound |
| `KdSearch.RadiusSearch` | libs/algo/include/kdTree.h:93-97 | returns each index strictly within the radius exactly once and no other |
| `KdSearch.RadiusWhole` | libs/algo/include/kdTree.h:93-97 | over a whole tree the pruned search finds each such index exactly once |
| `KdSearch.KnnWhole` | libs/algo/include/kdTree.h:81-89 | from an empty queue over a whole tree the queue ends as the k nearest |
| `KdSearch.KnnSearch` | libs/algo/include/kdTree.h:81-89 | min(k, n) distinct indices in ascending distance, and no other point is nearer than the last |
| `KdOrder.KNearestIsFront` | libs/algo/include/kdTree.h:81-89 | their distances are exactly the first min(k, n) entries of the sorted list of all distances |
| `KdOrder.SortSorts` | libs/algo/include/kdTree.h:81-89 | the reference sort is an ascending permutation |
| `KdOrder.SortedUnique` | libs/algo/include/kdTree.h:81-89 | and there is only one such list |
| `TrajProfile.RampDistance` | libs/motion/include/trajectory.h:54-61 | a ramp from one velocity to another covers the difference of the two braking distances |
| `TrajProfile.Case1` | libs/motion/src/trajectory.cpp:103-108 | moving away: stops, losing exactly its braking distance |
| `TrajProfile.Case21` | libs/motion/src/trajectory.cpp:110-128 | accelerates to the lower of limit and peak, covering exactly the distance in between |
| `TrajProfile.PeakBraking` | libs/motion/src/trajectory.cpp:113-114 | from the peak velocity the car stops exactly at the target |
| `TrajProfile.Case22` | libs/motion/src/trajectory.cpp:130-133 | at the limit: cruises to exactly where braking must start |
| `TrajProfile.Case22Below` | libs/motion/src/trajectory.cpp:130-133 | just below the limit: the error made is at most eps times half the ramp time |
| `TrajProfile.Case23` | libs/motion/src/trajectory.cpp:135-138 | brakes to rest over exactly the braking distance |
| `TrajProfile.Case3` | libs/motion/src/trajectory.cpp:140-144 | slows down to exactly the limit |
| `TrajProfile.StepBack` | libs/motion/src/trajectory.cpp:53-54 | where one turn of the loop leads, case by case |
| `TrajProfile.StepSlow` | libs/motion/src/trajectory.cpp:56-57 | likewise |
| `TrajProfile.StepStop` | libs/motion/src/trajectory.cpp:64-67 | likewise; this turn is the last |
| `TrajProfile.StepCruise` | libs/motion/src/trajectory.cpp:59-61 | likewise |
| `TrajProfile.StepNear` | libs/motion/src/trajectory.cpp:59-61 | likewise |
| `TrajProfile.StepAccel` | libs/motion/src/trajectory.cpp:63-64 | likewise, with the snapping of lines 90-92 |
| `TrajProfile.RankDrops` | libs/motion/src/trajectory.cpp:44-100 | for max_vel > eps and max_acc ≥ eps a rank of at most 4 drops at every turn, whatever distance and velocity |
| `TrajLoop.StopsIff` | libs/motion/src/trajectory.cpp:40-101 | for all positive limits, distances and velocities: the loop ends if and only if max_vel ≥ eps, or it is already done, or the one segment the branch guards select (turning, slowing, braking or cruising) leaves at most eps of the distance; its own counter never moves |
| `TrajLoop.StopsSteady` | libs/motion/src/trajectory.cpp:40-101 | for max_vel ≥ eps it ends whatever the acceleration limit, although peaks below the tolerance are snapped to rest |
| `TrajLoop.NeverStops` | libs/motion/src/trajectory.cpp:40-101 | from rest with max_vel < eps and more than eps to go no number of turns suffices |
| `TrajLoop.LeftAtMostRank` | libs/motion/src/trajectory.cpp:40-101 | for max_vel > eps and max_acc ≥ eps there are at most four segments |
| `TrajLoop.WeakTurns` | libs/motion/src/trajectory.cpp:44-93 | with a smaller max_acc there is no bound: a robot at rest whose peaks stay below the tolerance needs more than k segments from beyond 2^k·eps |
| `TrajLoop.RestsIff` | libs/motion/src/trajectory.cpp:40-101 | for all positive limits and every start for which the loop ends: the last segment ends at rest if and only if, for max_vel > eps, the robot does not accelerate to a peak below eps (or equal to it with at most eps left) when it first moves towards the target; for max_vel < eps, it neither slows down nor cruises; for max_vel = eps, it does not come to the limit with at most eps left, nor cruise there to a braking distance of at most eps |
| `TrajLoop.OkRests` | libs/motion/src/trajectory.cpp:40-101 | for max_vel > eps and max_acc ≥ eps the last segment always ends at rest |
| `TrajLoop.SlowStartEndsMoving` | libs/motion/src/trajectory.cpp:63-92 | a concrete profile with max_acc below the tolerance: one segment, from rest, that ends moving |
| `TrajLoop.LimitAtTolerance` | libs/motion/src/trajectory.cpp:44 | a concrete profile with max_vel equal to the tolerance that ends at that velocity |
| `TrajLoop.RestsBelow` | libs/motion/src/trajectory.cpp:44-93 | for max_vel < eps every profile that ends has one segment, which ends moving exactly when it slows down or cruises |
| `TrajLoop.RestsAtTolerance` | libs/motion/src/trajectory.cpp:44-93 | for max_vel = eps the same decided by the way left when the robot comes to the limit |
| `TrajLoop.Profile` | libs/motion/src/trajectory.cpp:40-101 | exactly as many segments as turns until the loop ends, and none exactly when already there |
| `TrajLoop.LandFromLimit` | libs/motion/src/trajectory.cpp:40-101 | where the profile from the limit velocity ends |
| `TrajLoop.LandForward` | libs/motion/src/trajectory.cpp:40-101 | from any velocity up to the limit whose braking distance fits, within eps·max(1, max_vel/max_acc) of the target, for max_vel > eps and any max_acc |
| `TrajLoop.Lands` | libs/motion/src/trajectory.cpp:40-101 | for max_vel > eps, any max_acc and every start: within that tolerance when the start velocity is not positive or its braking distance fits, and otherwise exactly the braking distance |
| `TrajLoop.WeakLands` | libs/motion/src/trajectory.cpp:44-93 | peaks below the tolerance lead up to within eps of the target and never past it |
| `TrajMotion.SingleDOF.constructor` | libs/motion/include/trajectory.h:32-48 | sign normalisation and the whole profile, whenever the loop ends |
| `TrajMotion.SingleDOF.SolveAll` | libs/motion/src/trajectory.cpp:40-101 | exactly when the loop ends (its requirement is the condition of StopsIff) it pushes exactly the profile and sums its durations |
| `TrajMotion.SingleDOF.OneTurn` | libs/motion/src/trajectory.cpp:49-99 | one turn: the segment is pushed, time and distance are added up, velocity and distance are snapped and clamped; for any positive limits |
| `TrajMotion.SingleDOF.ChooseSegment` | libs/motion/src/trajectory.cpp:53-67 | the segment chosen turns round, slows to the limit, brakes to rest, cruises to where braking starts, or accelerates to the lower of limit and peak: its acceleration, end velocity and distance in each case |
| `TrajMotion.ChoosePurpose` | libs/motion/src/trajectory.cpp:53-67 | the same as a law of the case split |
| `TrajMotion.SingleDOF.VelocityAt` | libs/motion/src/trajectory.cpp:146-157 | the velocity of the profile at any time, turned back; what that is: MeanVelocity, ConstantAcceleration, EndVelocity |
| `TrajMotion.SingleDOF.PositionAt` | libs/motion/src/trajectory.cpp:159-175 | and the position, past the end included |
| `TrajMotion.FindVelocity` | libs/motion/src/trajectory.cpp:146-157 | the accumulator loop computes it |
| `TrajMotion.FindPosition` | libs/motion/src/trajectory.cpp:159-175 | the loop itself |
| `TrajMotion.ProfileShape` | libs/motion/src/trajectory.cpp:69-101 | segments are chained, and have non-negative durations, accelerations in {a, 0, -a} and velocities in range if and only if the first cruise is long enough |
| `TrajMotion.ProfileProper` | libs/motion/src/trajectory.cpp:69-101 | the same by induction over the profile |
| `TrajMotion.ProfileChained` | libs/motion/src/trajectory.cpp:69-76 | every segment starts where the previous one ends |
| `TrajMotion.ProfileEnds` | libs/motion/src/trajectory.cpp:76-101 | the last segment ends at the landing point, with the final velocity |
| `TrajMotion.CruiseTime` | libs/motion/src/trajectory.cpp:130-133 | a cruise has a non-negative duration exactly when the distance is at least the limit's braking distance |
| `TrajMotion.ChooseProper` | libs/motion/src/trajectory.cpp:53-67 | the segment chosen is proper exactly under that condition |
| `TrajMotion.NotCruisable` | libs/motion/src/trajectory.cpp:59-61 | a concrete start just below the limit whose cruise has a negative duration |
| `TrajMotion.VelocityBounds` | libs/motion/src/trajectory.cpp:146-157 | on proper segments the velocity stays in range at all times |
| `TrajMotion.VelocityInRange` | libs/motion/src/trajectory.cpp:146-157 | for t ≥ 0 the velocity stays between min(v0, 0) and max(v0, max_vel) |
| `TrajMotion.PositionLipschitz` | libs/motion/src/trajectory.cpp:159-175 | on proper chained segments the position changes by at most abs(t-s) times the top speed, across joints and past the end |
| `TrajMotion.PositionContinuous` | libs/motion/src/trajectory.cpp:159-175 | the same for every profile under the exact condition |
| `TrajCurve.MeanVelocity` | libs/motion/src/trajectory.cpp:146-175 | velocity and position belong together: between two times in one segment the position changes by the mean of the two velocities times the time |
| `TrajCurve.ConstantAcceleration` | libs/motion/src/trajectory.cpp:146-157 | and the velocity by the acceleration of the segment times the time |
| `TrajCurve.EndVelocity` | libs/motion/src/trajectory.cpp:146-157 | at its end a segment has its final velocity |
| `TrajCurve.ProfileJoined` | libs/motion/src/trajectory.cpp:76-100 | from one segment to the next, and to standing at the end, the velocity jumps by at most twice the tolerance |
| `TrajCurve.VelocityRate` | libs/motion/src/trajectory.cpp:146-157 | on proper segments the velocity changes between any two times by at most the acceleration limit times the time, and a jump for each joint in between |
| `TrajCurve.ProfileRate` | libs/motion/src/trajectory.cpp:146-157 | the same for every profile without a negative cruise |
| `TrajCurve.SignsCancel` | libs/motion/include/trajectory.h:41-48 | the sign taken out before solving is put back by velocity and position |
| `TrajCurve.StartsAsGiven` | libs/motion/include/trajectory.h:32-49 | at time 0 the robot has the velocity it was given and has not moved |
| `TrajCurve.StandsAtLanding` | libs/motion/src/trajectory.cpp:153-175 | past the end of its profile it stands where the profile lands |
| `TrajCurve.EndsAsAsked` | libs/motion/include/trajectory.h:32-49 | so in the end it has moved from start to target but for the slack, whichever way that was |
| `TrajTime.ProfileTime` | libs/motion/src/trajectory.cpp:74 | the total time is the declarative time |
| `TrajTime.TimeFromRest` | libs/motion/src/trajectory.cpp:40-101 | the time from rest in closed form for max_vel > eps and any max_acc: four shapes when the profile ends at rest, and a geometric sum of halvings when it creeps |
| `TrajTime.CreepTurn` | libs/motion/src/trajectory.cpp:44-93 | one turn of a creeping profile leaves half the distance, and takes peak over acceleration |
| `TrajTime.CreepTimeIs` | libs/motion/src/trajectory.cpp:44-93 | so the whole takes that times 1 + h + h² + …, one term a halving, h the root of one half |
| `TrajTime.LongTime` | libs/motion/src/trajectory.cpp:40-101 | a way of two braking distances and t times the limit takes at least t |
| `TrajTime.FasterIff` | libs/motion/src/trajectory.cpp:186-192 | from rest, for max_vel > eps and any max_acc, both limits raised by a factor c do not take longer if and only if: both profiles creep or neither does; or the slower creeps and c times its sum of terms squared is at least 4; or the faster creeps and its sum times its peak is at most c times the other's peak plus its own limit |
| `TrajTime.SlowerCreeps` | libs/motion/src/trajectory.cpp:186-192 | the second case |
| `TrajTime.FasterCreeps` | libs/motion/src/trajectory.cpp:186-192 | the third case |
| `TrajTime.CreepGuard` | libs/motion/src/trajectory.cpp:186-192 | the second condition spelt out: always beyond four tolerances, from a factor of 4/(1+h)² between two and four, from a factor of four below |
| `TrajTime.FasterNeverLater` | libs/motion/src/trajectory.cpp:186-192 | in particular never longer for max_acc ≥ eps, nor when both creep or neither does |
| `TrajTime.FasterLater` | libs/motion/src/trajectory.cpp:186-192 | a concrete pair where the slower limits creep: 2.25 times as high take more than 3.3 instead of 2.5 |
| `TrajTime.FasterLaterCreeping` | libs/motion/src/trajectory.cpp:186-192 | a concrete pair where the faster limits creep: limits 1.21 times as high take longer over 1024 tolerances |
| `TrajSync.TimesAlongAngle` | libs/motion/src/trajectory.cpp:186-192 | along the angle the time on x does not fall and the time on y does not rise between two angles if and only if the conditions of FasterIff hold of the two shares of each axis; any acceleration shares |
| `TrajSync.OkComparable` | libs/motion/src/trajectory.cpp:186-192 | they do for any two angles whose acceleration shares are at least eps |
| `TrajSync.EqualBeyond` | libs/motion/src/trajectory.cpp:194-202 | so an equal-time angle that compares with this one in that sense lies strictly on the side the comparison says |
| `TrajSync.EqualMissed` | libs/motion/src/trajectory.cpp:194-202 | where the condition fails on both axes the comparison points away from the equal-time angle |
| `TrajSync.NarrowBisects` | libs/motion/src/trajectory.cpp:196-202 | each turn halves the bracket and keeps alpha its midpoint |
| `TrajSync.NarrowEncloses` | libs/motion/src/trajectory.cpp:196-202 | and keeps such an angle strictly inside |
| `TrajSync.SolvableIff` | libs/motion/src/trajectory.cpp:185-192 | an iteration ends if and only if the loops of both its axes do, at the limits its angle gives them |
| `TrajSync.BracketWithin` | libs/motion/src/trajectory.cpp:179-203 | the angle of iteration i is at least (π/2)/2^30 from both ends |
| `TrajSync.MarginsComplete` | libs/motion/src/trajectory.cpp:179-203 | with both speed shares at the extreme angles at least eps no iteration hangs, whatever the move |
| `TrajSync.MarginsIff` | libs/motion/src/trajectory.cpp:179-203 | exactly then: no move makes the bisection hang, nor any move from rest, if and only if max_vel·sin and max_vel·cos at the two extreme angles, (π/2)/2^30 from the ends, are at least eps |
| `TrajSync.EdgeMargin` | libs/motion/src/trajectory.cpp:185-203 | the converse: a move of two tolerances on one axis and far enough on the other runs to that end of the quadrant and hangs there unless the share suffices |
| `TrajSync.EdgeStep` | libs/motion/src/trajectory.cpp:194-202 | one iteration of that run: the far axis takes longer, and the bracket touches the same end again |
| `TrajSync.FirstHangs` | libs/motion/src/trajectory.cpp:179-192 | from rest on x with max_vel·cos(π/4) < eps already the first iteration hangs |
| `TrajSync.SlowDiagonal` | libs/motion/src/trajectory.cpp:179-192 | concretely: both limits equal to the tolerance and twice the tolerance to go on both axes, with the true cosine of π/4 |
| `TrajSync.SolveAxis` | libs/motion/src/trajectory.cpp:191-192 | one axis: its profile, its sign and its time |
| `TrajSync.BracketAt` | libs/motion/src/trajectory.cpp:179-203 | at every iteration i the bracket has width (π/2)/2^i and alpha is its midpoint, for all limits and start velocities |
| `TrajSync.BracketEncloses` | libs/motion/src/trajectory.cpp:194-202 | from rest, an equal-time angle that compares with the angles visited so far, whose speed shares are above eps, lies strictly inside the bracket of every iteration that is reached; the acceleration shares may be below eps |
| `TrajSync.SearchEncloses` | libs/motion/src/trajectory.cpp:185-203 | the same as a law of the running search |
| `TrajSync.NextRound` | libs/motion/src/trajectory.cpp:194-202 | one turn moves the search to the next iteration, whatever the limits |
| `TrajSync.NextAxes` | libs/motion/src/trajectory.cpp:186-202 | the same turn with both axes solved again |
| `TrajSync.Bisect` | libs/motion/src/trajectory.cpp:185-203 | when no iteration that is reached hangs, the loop solves both axes at the angle of the first iteration whose times agree within the tolerance, or of the thirtieth |
| `TrajSync.Synced2D.constructor` | libs/motion/src/trajectory.cpp:177-206 | the same for the object, with the profiles of both axes at the last angle and the slower one as total time; fewer than thirty evaluations only when the times agree within 1e-6 |
| `TrajSync.Synced2D.VelocityAtX` | libs/motion/src/trajectory.cpp:209 | the velocity along x, turned back |
| `TrajSync.Synced2D.VelocityAtY` | libs/motion/src/trajectory.cpp:210 | along y |
| `TrajSync.SharesMakeUp` | libs/motion/src/trajectory.cpp:185-190 | the speed and acceleration shares of the two axes make up the common limits as components of a vector |
| `TrajSync.PlanarSpeed` | libs/motion/src/trajectory.cpp:185-210 | so from rest the robot is never faster in the plane than max_vel, at whatever angle the axes were solved |
| `Rrt.ClosestPoint` | libs/algo/src/RRTX.cpp:72-80 | the clamped projection is the point of the leg nearest to an obstacle centre |
| `Rrt.ClosestDecides` | libs/algo/src/RRTX.cpp:82-86 | so one comparison decides for all points of the leg |
| `Rrt.ClearOf` | libs/algo/src/RRTX.cpp:76-86 | one obstacle: true if and only if every point of the leg keeps the distance |
| `Rrt.ClearOfAll` | libs/algo/src/RRTX.cpp:75-88 | all obstacles |
| `Rrt.IsCollisionFree` | libs/algo/src/RRTX.cpp:67-89 | true if and only if the leg has no length or every point of it keeps obstacle radius plus robot radius from every centre |
| `Rrt.FreeMeansClear` | libs/algo/src/RRTX.cpp:67-72 | that answer means clearance if and only if the leg has a length or its one point keeps clear of every obstacle |
| `Rrt.CentreIsFree` | libs/algo/src/RRTX.cpp:67-72 | a concrete leg without length in the centre of an obstacle that passes as free |
| `Rrt.SteerReach` | libs/algo/src/RRTX.cpp:56-65 | a steered point is at most step_size away, exactly so when the sample is farther |
| `Rrt.SteerTowards` | libs/algo/src/RRTX.cpp:56-65 | it lies on the leg to the sample, brings the sample nearer by step_size or all the way, and is the sample when that is nearer than step_size |
| `Rrt.AlongDistance` | libs/algo/src/RRTX.cpp:56-65 | the point at a share u of a leg is u times its length from one end and the rest from the other |
| `Rrt.ExtendsTowards` | libs/algo/src/RRTX.cpp:133-158 | a node that was added lies on the leg from its parent, a nearest node, to the sample, and as far along it |
| `Rrt.RouteFacts` | libs/algo/src/RRTX.cpp:186-191 | in any well-formed tree the route to a node has free legs of at most step_size whose lengths add up to its cost |
| `Rrt.Nearest` | libs/algo/src/RRTX.cpp:136-144 | the linear scan finds the first nearest node, and keeps its default exactly when all are 1e9 or more away |
| `Rrt.GrownOk` | libs/algo/src/RRTX.cpp:153-158 | adding a free steered node keeps the tree well formed: parents precede children and costs add up |
| `Rrt.Extend` | libs/algo/src/RRTX.cpp:133-158 | one sample: the tree grows by the node steered from the first nearest one towards the sample, exactly when the leg is free |
| `Rrt.ExtendsOnce` | libs/algo/src/RRTX.cpp:133-158 | a sample determines the next tree |
| `Rrt.CheckGoal` | libs/algo/src/RRTX.cpp:161-162 | connection is tested only for a new node, by distance and free sight |
| `Rrt.GrowthNext` | libs/algo/src/RRTX.cpp:124-169 | one turn continues the growth or ends it with a connection |
| `Rrt.Grow` | libs/algo/src/RRTX.cpp:124-169 | for every sample sequence: the tree is well formed and is the one the samples lead to, ended at the first connection or with the last sample |
| `Rrt.GrownTreeOnce` | libs/algo/src/RRTX.cpp:124-169 | the samples determine that tree and the connecting node |
| `Rrt.GrownGoal` | libs/algo/src/RRTX.cpp:161-163 | a connecting node is the last one, within step_size and in free sight of the goal |
| `Rrt.ReadTree` | libs/algo/src/RRTX.cpp:171-200 | with a connection the path is the route to it and then the goal; without one, the route to the first nearest node, and the goal if it is in free sight and more than 0.01 away; no path exactly when every node is 1e9 away |
| `Rrt.ReadPath` | libs/algo/src/RRTX.cpp:186-191 | following parents and reversing gives the route from the start |
| `Rrt.Plan` | libs/algo/src/RRTX.cpp:110-201 | for every sample sequence: the straight leg exactly when it is free, and otherwise a path that starts at the start, follows free tree legs of at most step_size with the cost of its last node, and ends at the goal when it was connected |
| `Rrt.RRTX.constructor` | libs/algo/src/RRTX.cpp:9-13 | the configuration |
| `Rrt.RRTX.PlanningStep` | libs/algo/src/RRTX.cpp:17-24 | the same on the object, from any earlier state |
| `Kinematics.ContactIsHub` | libs/kin/include/OmniKinematics.h:16-30 | a wheel's contact speed is the velocity of its hub, in the robot's motion and spin, projected on the wheel's direction |
| `Kinematics.AdjugateUndoes` | libs/kin/src/OmniKinematics.cpp:55-74 | the nine cofactor formulas are an adjugate: it undoes the matrix up to the determinant, on both sides |
| `Kinematics.InverseUndoes` | libs/kin/src/OmniKinematics.cpp:64-74 | divided by the determinant it is the inverse |
| `Kinematics.GramApplies` | libs/kin/src/OmniKinematics.cpp:45-53 | the accumulated matrix applied to v is M^T(Mv) |
| `Kinematics.MixedIsDifference` | libs/kin/src/OmniKinematics.cpp:86-94 | the cross term of two residuals is the normal-equation defect |
| `Kinematics.ResidualGap` | libs/kin/src/OmniKinematics.cpp:86-94 | how much larger another residual is |
| `Kinematics.NormalIsLeast` | libs/kin/src/OmniKinematics.cpp:76-94 | whatever solves the normal equations has the least sum of squared residuals |
| `Kinematics.SolvedIsApply` | libs/kin/src/OmniKinematics.cpp:76-92 | pseudo-inverse times contact speeds is inverse times M^T b |
| `Kinematics.ChassisToWheels` | libs/kin/src/OmniKinematics.cpp:11-29 | every wheel turns at its contact speed over its radius |
| `Kinematics.GramMatrix` | libs/kin/src/OmniKinematics.cpp:45-53 | the triple loop computes M^T M |
| `Kinematics.PseudoInverse` | libs/kin/src/OmniKinematics.cpp:76-84 | the triple loop computes the inverse times M^T |
| `Kinematics.Combine` | libs/kin/src/OmniKinematics.cpp:86-92 | the last loop computes one velocity component |
| `Kinematics.SolveNormal` | libs/kin/src/OmniKinematics.cpp:64-94 | inverse, pseudo-inverse and product together solve the normal equations |
| `Kinematics.WheelsToChassis` | libs/kin/src/OmniKinematics.cpp:31-95 | zero below the determinant threshold, otherwise a solution of the normal equations |
| `Kinematics.LeastSquares` | libs/kin/src/OmniKinematics.cpp:31-95 | no other chassis velocity has a smaller sum of squared contact-speed residuals, for every wheel vector |
| `Kinematics.Inverts` | libs/kin/src/OmniKinematics.cpp:31-95 | contact speeds that come from a chassis velocity give back that velocity |
| `Kinematics.RoundTrip` | libs/kin/src/OmniKinematics.cpp:11-95 | wheels then chassis is the identity for any trigonometric functions and non-zero radii when abs(det) ≥ 1e-6, and zero otherwise |
| `HostComm.EveryRun` | libs/comm/src/HostComm.cpp:52-138 | in every interleaving, with spurious wake-ups and any number of concurrent calls: sends never outnumber "ready" messages nor SetRobotCommands calls, and the sender is never asleep with both flags true unless a notification is on its way |
| `HostComm.StepKeepsInv` | libs/comm/src/HostComm.cpp:52-138 | every single step keeps the invariant behind this |
| `HostComm.KeepsCounted` | libs/comm/src/HostComm.cpp:52-138 | the counting part |
| `HostComm.KeepsExclusive` | libs/comm/src/HostComm.cpp:56-66 | the mutex part |
| `HostComm.KeepsWakeups` | libs/comm/src/HostComm.cpp:59-60 | no wake-up is lost |
| `HostComm.UnsetStep` | libs/comm/src/HostComm.cpp:93-106 | which steps open or close a call that has not set its flag yet |
| `HostComm.RunKeepsInv` | libs/comm/src/HostComm.cpp:52-138 | the invariant over any run from any good state |
| `HostComm.StepPays` | libs/comm/src/HostComm.cpp:52-138 | a step that sends uses up a flag of each kind that was set and not yet sent for; no other step loses one |
| `HostComm.AnyStretch` | libs/comm/src/HostComm.cpp:52-138 | over any stretch of a run, sends are bounded by what was pending before plus the flags set during it, for each flag |
| `HostComm.Delivers` | libs/comm/src/HostComm.cpp:52-74 | with both flags set and all calls finished, the sender alone reaches a send within its own bounded number of steps, and takes each flag once |
| `HostProgress.Progress` | libs/comm/src/HostComm.cpp:52-138 | progress: in every run, after a ready message and a call that the sender has not taken since, some continuation has one more send, and two more when it still held an earlier pair |
| `HostProgress.ArrivedIsPending` | libs/comm/src/HostComm.cpp:93-138 | an arrival stays pending, its flag up or still to be set, until the sender takes its kind |
| `HostProgress.Fulfils` | libs/comm/src/HostComm.cpp:52-74 | from every state of every run all that was promised can be sent |
| `HostProgress.PromiseKept` | libs/comm/src/HostComm.cpp:52-138 | and no step of any thread breaks a promise |
| `HostProgress.RunKeepsPromise` | libs/comm/src/HostComm.cpp:52-138 | nor does any run |
| `HostProgress.Conserved` | libs/comm/src/HostComm.cpp:52-138 | in any stretch of a run, as equalities: arrivals and sends are counted, and every flag the sender takes is sent for exactly once |
| `HostProgress.FlagStep` | libs/comm/src/HostComm.cpp:52-106 | over every single step a flag is up afterwards if and only if a call has just set it, or it was up and the sender has not taken it |
| `HostProgress.Drains` | libs/comm/src/HostComm.cpp:93-106 | all calls in flight can finish, each setting its flag |
| `BlasScalar.ComplexField` | libs/external/eigen/blas/common.h:62-66 | the complex numbers, with their division and conjugation, satisfy the laws the routines are proved from |
| `BlasScalar.RealField` | libs/external/eigen/blas/common.h:62-66 | and so do the reals, whose conjugation does nothing |
| `BlasScalar.ConjSize` | libs/external/eigen/blas/common.h:62-66 | a complex number times its conjugate is its squared size |
| `BlasCore.AdjointEntry` | libs/external/eigen/blas/level2_impl.h:412-438 | the adjoint's entries are the conjugates of the transposed ones, on a diagonal of ones too |
| `BlasCore.LowerIsUpper` | libs/external/eigen/blas/PackedTriangularSolverVector.h:24-63 | offsets of the two packed triangles add up to the whole |
| `BlasCore.SumTriangle` | libs/external/eigen/blas/BandTriangularSolver.h:28-80 | a row of a triangular matrix sums to one side and the diagonal |
| `BlasCore.SameUpTo` | libs/external/eigen/blas/BandTriangularSolver.h:28-80 | two solutions agree on a growing prefix in substitution order |
| `BlasCore.OneSolution` | libs/external/eigen/blas/BandTriangularSolver.h:28-80 | a triangular system with non-zero diagonal has at most one solution |
| `BlasCore.RowStep` | libs/external/eigen/blas/BandTriangularSolver.h:30-50 | one row of forward or backward substitution keeps what is solved |
| `BlasCore.ColumnStep` | libs/external/eigen/blas/BandTriangularSolver.h:61-78 | one column of elimination does, too |
| `BlasCore.AllSolved` | libs/external/eigen/blas/BandTriangularSolver.h:28-80 | when every row is solved the whole product holds |
| `BlasCore.AddSegment` | libs/external/eigen/blas/level2_impl.h:352-379 | adding a scaled segment |
| `BlasCore.TotalIsSum` | libs/external/eigen/blas/level2_impl.h:352-415 | the sum of a product of segments is the partial row sum |
| `BlasBand.UpperDiagonal` | libs/external/eigen/blas/level2_impl.h:314-315 | in band storage row k holds the diagonal of an upper matrix and row k - t the one t above it |
| `BlasBand.LowerDiagonal` | libs/external/eigen/blas/level2_impl.h:314-315 | row 0 holds the diagonal of a lower matrix and row t the one t below it |
| `BlasBand.AddLoop` | libs/external/eigen/blas/level2_impl.h:418-436 | the scalar loop has the same contract as the segment operation |
| `BlasBand.AddColumn` | libs/external/eigen/blas/level2_impl.h:345-436 | either code path, chosen by the bandwidth |
| `BlasBand.AddProducts` | libs/external/eigen/blas/level2_impl.h:373-453 | either code path for the transposed form, with and without conjugation |
| `BlasBand.ColumnAdds` | libs/external/eigen/blas/level2_impl.h:352-436 | adding the stored segment of a column does to every entry what the whole column would |
| `BlasBand.BandPast` | libs/external/eigen/blas/level2_impl.h:437-453 | the band is all of the row that is not zero |
| `BlasBand.AddOne` | libs/external/eigen/blas/level2_impl.h:345-436 | one column, skipped when its factor is zero |
| `BlasBand.ReplaceOne` | libs/external/eigen/blas/level2_impl.h:373-453 | one row |
| `BlasBand.RowRest` | libs/external/eigen/blas/BandTriangularSolver.h:37-46 | what is left of a row once the solved unknowns are taken out |
| `BlasBand.Tbmv` | libs/external/eigen/blas/level2_impl.h:317-458 | in place, x becomes the triangular band product of its old value, over any field with a conjugation, for all sizes, bandwidths, triangles and diagonals, for A, its transpose and its conjugate transpose, on the segment path (k ≥ 8) and on the scalar path |
| `BlasBand.SolveRow` | libs/external/eigen/blas/BandTriangularSolver.h:28-51 | the row-major solver loop |
| `BlasBand.SolveColumn` | libs/external/eigen/blas/BandTriangularSolver.h:59-79 | the column-major solver loop |
| `BlasBand.Tbsv` | libs/external/eigen/blas/level2_impl.h:471-544 | in place, the product of the result is the old x, for the same family (conjugate transposes included) with a non-zero diagonal, the unit-bandwidth shortcut included |
| `BlasBand.TbmvThenTbsv` | libs/external/eigen/blas/level2_impl.h:317-544 | the solver undoes the product |
| `BlasBand.TbsvThenTbmv` | libs/external/eigen/blas/level2_impl.h:317-544 | and the product undoes the solver |
| `BlasPacked.TriangleClosed` | libs/external/eigen/blas/PackedTriangularMatrixVector.h:22-74 | a packed triangle has n(n+1)/2 entries |
| `BlasPacked.PackedLayout` | libs/external/eigen/blas/PackedTriangularSolverVector.h:24-63 | entry (i, j) of a packed upper triangle is number j(j+1)/2 + i, of a lower one number j(2n-j+1)/2 + i - j |
| `BlasPacked.ColumnFits` | libs/external/eigen/blas/PackedTriangularMatrixVector.h:29-44 | the moving pointer stays inside the packed storage |
| `BlasPacked.ProductColumn` | libs/external/eigen/blas/PackedTriangularMatrixVector.h:29-44 | one column of the column-major product |
| `BlasPacked.ProductRow` | libs/external/eigen/blas/PackedTriangularMatrixVector.h:55-73 | one row of the row-major product |
| `BlasPacked.Tpmv` | libs/external/eigen/blas/level2_impl.h:553-630 | x becomes the packed triangular product of its old value, in every form, conjugate transposes included |
| `BlasPacked.RowRest` | libs/external/eigen/blas/PackedTriangularSolverVector.h:31-36 | what is left of a row once the solved unknowns are taken out |
| `BlasPacked.DivideDiagonal` | libs/external/eigen/blas/PackedTriangularSolverVector.h:56 | the division by the diagonal |
| `BlasPacked.SolveRow` | libs/external/eigen/blas/PackedTriangularSolverVector.h:24-40 | one row of packed substitution |
| `BlasPacked.SolveColumn` | libs/external/eigen/blas/PackedTriangularSolverVector.h:47-62 | one column of packed substitution |
| `BlasPacked.FirstOffsetIs` | libs/external/eigen/blas/PackedTriangularSolverVector.h:26-28 | the pointer starts on the first column used |
| `BlasPacked.NextOffsetIs` | libs/external/eigen/blas/PackedTriangularSolverVector.h:29-61 | and moves to the next one, in both directions |
| `BlasPacked.Tpsv` | libs/external/eigen/blas/level2_impl.h:644-714 | in place, the product of the result is the old x, in every form with a non-zero diagonal, conjugate transposes included |
| `BlasPacked.TpmvThenTpsv` | libs/external/eigen/blas/level2_impl.h:553-714 | the packed solver undoes the packed product |
| `BlasPacked.TpsvThenTpmv` | libs/external/eigen/blas/level2_impl.h:553-714 | and the other way round |

## Left out

- Codec: extensions, user callbacks, pointer fields and `PB_ENABLE_MALLOC`, default-value streams, custom streams, the NULLTERMINATED and DELIMITED flags, double/float conversion and UTF-8 validation; optional builds or foreign code.
- Codec: of `message.proto` only the robot command is modelled, from the message's text; the generated descriptor files are not part of this model. The theorems hold for any descriptor the generator's own assertions allow, with 16-bit sizes (`PB_FIELD_32BIT` off) and array sizes of at least one.
- Codec: structs are values. The C code writes into one block of memory; here nested messages and union members are replaced as values, so overlapping union members and pointer aliasing are not captured.
- Codec: `size_t` is unbounded, except that a length of 2^64 or more makes encoding fail; the word-wise `fields_seen` bit field is the set of required indices it stands for; iterator indices are unbounded naturals; error texts are left out.
- MsgRoundTrip: assumes that nested messages are shorter than 2^32 bytes, because lengths are read as 32-bit numbers; other payloads are always shorter, since sizes and counts have 16 bits, and the outermost message may be longer. The converse, MsgRoundTripIff, stops at 0x780000000 bytes.
- LaidRoundTrip: every field has a data_size of at least one byte, so arrays of no length, which C does not have, are left to MsgRoundTrip.
- DecodeStaticField: members of a union are separate values, so the bytes they share in memory, and what switching members leaves in them, are not modelled.
- RoundTripAmongUnknown: the same bound, and tag 0 is not an unknown field, because the decoder rejects it.
- NewerSender: the shared fields keep their tag, rule, type, array size and number of union; nested messages within reach as for MsgRoundTrip. Widening a type or turning a field into an array is not covered.
- RecordMeans: for records whose key and length are below 2^32 and whose numbers are below 2^64 (flags below 2^32); what the decoders make of larger ones is said by Decode32Agrees.
- WholeOrNone: says that every position is written; that a fixed-count array is broken off at the end of a message is in AcceptedIff, and between two arrays in the bookkeeping RecordMeans names.
- ContactIsHub: asks for the angle difference identity of the sine, the only trigonometric law used there.
- PlanarSpeed: from rest, with both speed shares at least eps, and a sine and cosine whose squares add up to one.
- EmitTokens: states that the tokens stand for the data, not which matches were taken; that is said turn by turn by ChooseMatch, for one bucket of one hash value, since no promise is made about the compression ratio.
- Compression: allocation failure, growth of the stretchy buffer, and the PNG writer around the encoder; the reader knows fixed and stored blocks only, since no dynamic block is ever written.
- k-d tree: the square root is a parameter with its defining property, coordinates are exact reals, and `std::nth_element` is one implementation of its contract.
- NnSearch: the initial bound is a parameter instead of the largest double, and an index never assigned is None where the source returns an uninitialised integer.
- KnnSearch: requires k ≥ 1. For k = 0 the queue keeps nothing and the source then reads its last element; a negative k becomes a huge unsigned bound, for which reserving space fails or, at -1, nothing pushed is ever dropped; neither is modelled.
- KDTree: `validate`, which only compares immediate children, and deletion of nodes are left out.
- Trajectory: exact reals, with the tolerance, square root, sine, cosine and right angle as parameters; debug output left out.
- SolveAll: requires the exact condition under which its loop ends (StopsIff), since a method has to; positive limits, as everywhere in the trajectory.
- Lands: for max_vel > eps, since at equality arriving at the limit counts as arriving.
- LeftAtMostRank: requires max_acc ≥ eps, since below that there is no bound (WeakTurns).
- FasterIff: for max_vel > eps, since below it no profile from rest has an end unless it is there already, and at equality arriving at the limit counts as arriving.
- EqualBeyond: asks for the exact condition of FasterIff on both axes; when it fails on both the angle lies on the wrong side (EqualMissed), and when it fails on one only nothing is said.
- Synced2D: keeps the number of evaluations and the last bracket in ghost fields, which the source does not store; requires that no iteration it reaches hangs; the 30 evaluations are the same, with the loop arranged around the comparison.
- Planner: random sampling and the wall clock are an arbitrary sequence of samples; `updateObstacle`, unused settings and logging are left out.
- Plan: a leg of length zero is exempt from clearance, as in the source (FreeMeansClear).
- Kinematics: the number of wheels and the trigonometric functions are arbitrary; the unused maximum is left out.
- HostComm: sockets, thread shutdown and the contents of `stored_commands`, which are written and read outside the lock; any number of calls may run at once.
- BLAS: exact scalars; argument checks, vector strides and the leading dimension are left out, columns being sequences.
- Rendering, windowing, asio transport, camera parsing, loggers, UART and key handling are I/O; frame rotation, clock offsets and slot sums would only add easy members.
