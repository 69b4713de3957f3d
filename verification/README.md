# Verified models of the Routing Service gateway plug-ins

The gateway connects DDS to Kafka, Modbus and JSON text, converts between sequences and
arrays, and forwards samples between routes. This project models the parts that carry logic
of their own and proves what they guarantee. The libraries around them (Connext DDS,
librdkafka, libmodbus) appear as parameters: the results of their calls are arbitrary unless
their documentation fixes them.

| files | component |
|---|---|
| `KafkaHandshake.dfy` | polling thread and readers of the Kafka adapter, as a step system over all interleavings |
| `Float32.dfy`, `ModbusCodec.dfy`, `ModbusRoundTrip.dfy`, `ModbusTransform.dfy` | single-precision rounding, the Modbus register codec, write-then-read, the linear transformation |
| `ModbusLayout.dfy`, `ModbusStreamWriter.dfy` | register counts after the parse; the stream writer |
| `DynamicTypes.dfy`, `SequenceArray.dfy`, `SequenceArrayConvert.dfy`, `TypeCompatibility.dfy` | sequence/array conversion of nested samples, and the type check in front of it |
| `Glob.dfy`, `MatchingTable.dfy`, `ForwardingEngine.dfy` | wildcard patterns, the forwarding table, the forwarding engines and their cache |
| `SamplePool.dfy` | the loan/return pool of output samples shared by all transformations |
| `JsonText.dfy`, `JsonTransport.dfy`, `JsonTransformation.dfy` | newline rewriting, C strings in members, the growing JSON buffer |
| `DottedPath.dfy` | splitting and type lookup of dotted member paths |
| `Wrappers.dfy`, `Subsequences.dfy`, `CStrings.dfy` | shared vocabulary |

`dafny verify dfyconfig.toml` checks everything.

## Main results

* **Kafka.** In every interleaving, with any number of readers and any failing call, the message
  slot has at most one user, is never overwritten or freed under a reader, and messages are
  destroyed once each, in order. Payloads are handed out in polling order, and unless setting up the
  buffer fails none is left out. A request to stop lets at most one more message through, and the
  thread then leaves as soon as it is back at its loop. There is no deadlock: some
  thread can go on unless a semaphore give or a copy failed, which loses the slot for good, or the
  poller has left its loop. When it has left is known exactly; with the code as written one consumer
  error is enough. A poller that waits for a lost slot is not released by the request to stop.
* **Modbus.** For every factor f and offset o, the number checked and written for x is o + x f: as
  two's complement of its integer part, high word first, or in single precision. Reading computes
  o + v f up to (|o| + 4 |v f|) 2^-24 + (3 + 2 |f|) 2^-150, so that reading through the inverse
  transformation undoes writing up to a stated bound. A value written with factor 1 and offset 0 is read back as the nearest number with 24
  significant bits, hence unchanged exactly when it has no more; the exact limit below which the
  final cast is defined is given for every kind. The unsigned 16-bit path works only up to 255.
  Floating-point registers give the rounded value back exactly when it is still acceptable. A block
  sent carries the checked values of its field and, behind a short sequence, zeros nobody checked;
  exactly when it can be read back is stated.
* **Sequence/array.** Both `convert_sample` functions succeed exactly when every collection at every
  depth fits, and what they compute is described position by position: each leaf stays where it was. What survives array-to-sequence-to-array, and
  sequence-to-array-to-sequence, is characterised exactly, at every depth and for every element
  count the library may report for a sequence. So is which of the pairs accepted by the type check
  the converters can handle.
* **Forwarding.** For `*`-only rules merging never loses a key; with `?` as well, a finite test on the
  built table decides exactly whether it loses any. A found key gets the output of the last rule with
  the same first match. Every output receives, in order, exactly the data of the valid samples, over
  all inputs whose take succeeds, whose key leads to it. Cached keys
  equal fresh ones exactly while a member keeps the kind it had when the input first delivered it.
* **Pool.** Over every run samples are pairwise distinct and deleted exactly once, and no `transform`
  gets through during a loan. What each slot holds after any batch, failed or not, is known exactly,
  and so is when the pool is clean; a session whose batches succeed with their valid inputs first
  hands out what the plug-in makes of each input alone.
* **JSON.** Newline rewriting keeps the token sequence exactly when no string literal holds a raw
  newline. Over any run of samples from serializer to deserializer, a member carries every emitted
  text shorter than its length (an empty one not always) that the library does not refuse, and no
  other; a sequence member carries nothing more after the first refusal. A string that fills its
  bound is refused on reading. The buffer size is the largest size needed so far.

## Where code and documentation disagree

The models follow the code.

* The polling thread leaves its loop after a *successful* error cleanup
  (`plugins/adapters/kafka/srcC/KafkaStreamReader.c:86`), although the comment above it calls consumer
  errors informational. `ConsumerErrorEndsPolling` shows such a run and `RunLeaves` says exactly when
  the thread has ended; the other theorems cover both readings.
* Deleting a reader clears `run_thread` and joins the polling thread without limit
  (`plugins/adapters/kafka/srcC/KafkaConnection.c:560-563`), but a thread that already waits for
  `poll_sem` does not look at it: after a failed give it waits for good (`StoppingDoesNotRelease`,
  `PollerCanBeStranded`).
* The comment in `plugins/adapters/modbus/srcCxx/ModbusStreamWriter.cxx:124-127` says the vector
  cannot be longer than the configured array. That holds for arrays, not for sequences
  (`LongSequenceOverrunsBlock`).
* A sequence shorter than the configured array leaves the last registers of the block at 0, which is
  sent without any check, may lie outside the configured range, and then keeps the whole block from
  being read (`ShortSequenceSendsUncheckedZero`, `SentBlockReadsBack`). Coils are never checked.
* `plugins/adapters/modbus/srcCxx/ModbusAdapterConfiguration.cxx:487` casts the unsigned 16-bit
  result to 8 bits (`ReadBackNarrows`).
* A negative `modbus_register_count` that is a multiple of the value's width passes the parse
  (`ParsedShapeWhole`).
* The documentation of the sequence converter says an oversized sample is dropped; the exception
  leaves `transform` and ends the whole batch (`Transform`). Its type check accepts pairs no
  converter can handle (`AcceptsMismatchedPairs`), and compares members by name although they are
  copied by position (`ReorderedMembersMisplaced`); `AcceptedExactly` lists all it overlooks.
* A bounded string that uses its full length cannot be deserialized from JSON, because the buffer
  size handed to the library leaves no room for the terminator (`RoundTripString`). The serializer
  never writes one, for the same reason (`SendableExactly`).
* The clean-up after a failed batch (`common/transformation/srcC/Transformation.c:524-532`) is guarded
  by a condition that never holds. What the batch has written stays in the pool and reaches the next
  one (`FailedBatchLeaks`); so does the output of a valid input behind an invalid one
  (`InvalidFirstLeaks`).
* When the library refuses to set a sequence member, the sequence keeps its loan and every later
  sample fails (`RefusedSetStopsMember`). A value that does not fit never gets that far
  (`SendableExactly`).
* A floating-point value is checked against the configured range and list before it is rounded for
  writing and after it on reading, so a valid value may be written and then not be read
  (`ValidValueNotReadBack`).

## Assumptions on the libraries

* A DDS input delivers samples of one type. A union without a selected member reports that the
  member does not exist. Writing or loaning an element beyond the capacity of a collection throws.
  An empty sequence still knows the kind of its elements. The element count reported for an output
  sequence is a parameter (`count`).
* Each `read` that returned one sample is followed by exactly one `return_loan`.
* Casting a number to an integer type that cannot hold it yields an arbitrary value (a parameter).
* The JSON formatter fails for lack of space exactly when text and terminator exceed the size given,
  and then reports the size needed.

## Model

| member | source | states |
|---|---|---|
| KafkaHandshake.RunKeepsInv | plugins/adapters/kafka/srcC/KafkaStreamReader.c:24-220 | the protocol invariant (one owner of the slot; destroyed messages are the polled ones but at most the newest; payloads handed out are those so marked) holds after every run |
| KafkaHandshake.StepKeepsInv | plugins/adapters/kafka/srcC/KafkaStreamReader.c:51-139 | every single step of poller or reader, with any result of its library call, keeps the invariant |
| KafkaHandshake.RunSlotExclusive | plugins/adapters/kafka/srcC/KafkaStreamReader.c:42-220 | at most one of: poll token free, poller working, read token free, a reader between `read` and the end of `return_loan`; and at most one reader |
| KafkaHandshake.RunSlotStable | plugins/adapters/kafka/srcC/KafkaStreamReader.c:168-211 | while a reader copies or holds the loan, the slot refers to one live proper message and no step changes it; only that reader's own `return_loan` frees it |
| KafkaHandshake.RunDestroysOnce | plugins/adapters/kafka/srcC/KafkaStreamReader.c:24-28 | messages are destroyed in polling order, each once, all but possibly the newest |
| KafkaHandshake.RunHandsOutInOrder | plugins/adapters/kafka/srcC/KafkaStreamReader.c:61-191 | payloads handed out are a subsequence of the proper messages polled; without a setup failure, a prefix at most one message behind |
| KafkaHandshake.EveryMessageHandedOut | plugins/adapters/kafka/srcC/KafkaStreamReader.c:74-139 | on actions alone: in a run where setting up `payload` never fails, what the successful reads returned is the list of payloads of the proper messages polled, none left out but possibly the newest |
| KafkaHandshake.RunDrops | plugins/adapters/kafka/srcC/KafkaStreamReader.c:92-126 | a proper message was or is being dropped iff setting up `payload` failed in the run |
| KafkaHandshake.RunRecorded | plugins/adapters/kafka/srcC/KafkaStreamReader.c:61-191 | messages and payloads of the history are those of the polls and successful copies of the run, in order |
| KafkaHandshake.RunDestructions | plugins/adapters/kafka/srcC/KafkaStreamReader.c:24-220 | as many messages are destroyed as there are cleanups and returns in the run |
| KafkaHandshake.FailedSetupDestroys | plugins/adapters/kafka/srcC/KafkaStreamReader.c:92-126 | when setting up `payload` fails, destroying the message is all the poller can do |
| KafkaHandshake.RunOfTheCode | plugins/adapters/kafka/srcC/KafkaStreamReader.c:77-126 | with the exit after a cleanup, every message but the newest is proper and was handed out: a consumer error is the last thing polled |
| KafkaHandshake.RunLeaves | plugins/adapters/kafka/srcC/KafkaStreamReader.c:42-139 | after every run the poller has left its loop iff the run holds a step that ends it: it saw the request to stop, a take or a give of the loop failed, or (as the code is written) an error was cleaned up successfully; what a request to stop leads to is `StopEndsPolling` |
| KafkaHandshake.StopEndsPolling | plugins/adapters/kafka/srcC/KafkaConnection.c:560-563 | after a request to stop, at any point of any run, the loop is never entered again, at most one further message is polled, and back at its loop the thread can only leave |
| KafkaHandshake.StoppedAtOnce | plugins/adapters/kafka/srcC/KafkaStreamReader.c:51-61 | told before it starts, the thread polls nothing |
| KafkaHandshake.NothingPolledAfterLeaving | plugins/adapters/kafka/srcC/KafkaStreamReader.c:51-61 | from then on no message is polled |
| KafkaHandshake.ConsumerErrorEndsPolling | plugins/adapters/kafka/srcC/KafkaStreamReader.c:74-90 | whenever the poller polls, one consumer error cleaned up without failure ends the thread and all polling; if the comment held, the thread would be back at its loop |
| KafkaHandshake.FirstMessageIsAnError | plugins/adapters/kafka/srcC/KafkaStreamReader.c:74-90 | the five-step run from the initial state |
| KafkaHandshake.RunSlotConserved | plugins/adapters/kafka/srcC/KafkaConnection.c:506-520 | from one initially available token: after every run a semaphore is available, the poller works or a reader is active, unless a give or a copy failed in the run, and conversely |
| KafkaHandshake.LostSlotStopsEverything | plugins/adapters/kafka/srcC/KafkaStreamReader.c:176-186 | after a failed give or copy no continuation polls, destroys or hands out anything |
| KafkaHandshake.NoDeadlock | plugins/adapters/kafka/srcC/KafkaStreamReader.c:42-220 | after every run some thread has a step that does not fail, unless the slot is lost while the poller waits for it or has left, or the poller has left with the slot free; in those cases none has |
| KafkaHandshake.StoppingDoesNotRelease | plugins/adapters/kafka/srcC/KafkaConnection.c:560-563 | once the poller waits for a lost slot, every continuation without a failing call consists of stop requests, and it still waits |
| KafkaHandshake.FailedGiveStrands | plugins/adapters/kafka/srcC/KafkaStreamReader.c:24-38 | a failed give at the end of a cleanup takes a running poller there |
| KafkaHandshake.PollerCanBeStranded | plugins/adapters/kafka/srcC/KafkaStreamReader.c:51-90 | the shortest such run from the initial state |
| Float32.RoundNearest | plugins/adapters/modbus/srcCxx/ModbusAdapterConfiguration.cxx:507-509 | no integer with 24 significant bits is nearer than the rounded value |
| Float32.RoundIntegerExact | plugins/adapters/modbus/srcCxx/ModbusAdapterConfiguration.cxx:507-509 | exactly the integers with 24 significant bits are unchanged by conversion to single precision |
| Float32.RoundIdempotent | plugins/adapters/modbus/srcCxx/ModbusAdapterConfiguration.cxx:451-453 | rounding a rounded value changes nothing, so factor 1 and offset 0 add no error |
| Float32.RoundStaysBelow | plugins/adapters/modbus/srcCxx/ModbusAdapterConfiguration.cxx:547-565 | rounding reaches a power of two exactly from half a unit below it |
| Float32.RoundErrorBound | plugins/adapters/modbus/srcCxx/ModbusAdapterConfiguration.cxx:451-453 | every magnitude, subnormal ones included, is rounded by at most its 2^-24th part plus half the smallest positive number |
| Float32.VanishesBelowSmallest | plugins/adapters/modbus/srcCxx/ModbusAdapterConfiguration.cxx:451-453 | conversion to single precision gives zero exactly for magnitudes up to 2^-150 |
| ModbusCodec.CastIsTwosComplement | common/utils/srcCxx/UtilsLongDouble.hpp:56-114 | from the smallest signed to the largest unsigned value of a width, the unsigned cast is the two's complement of the truncated number, and reading it as signed gives the number back |
| ModbusCodec.JoinWords | plugins/adapters/modbus/srcCxx/LibModbusClient.hpp:194-225 | splitting into 16-bit words, high word first, is undone by joining, for all widths |
| ModbusCodec.WordsSpellValue | plugins/adapters/modbus/srcCxx/LibModbusClient.hpp:194-225 | the words of a number spell it out in base 65536, the first word the most significant |
| ModbusCodec.JoinIsValue | plugins/adapters/modbus/srcCxx/LibModbusClient.hpp:194-225 | joining any words gives the number they spell out; 8-bit reading ignores the upper half |
| ModbusCodec.EncodeTransforms | plugins/adapters/modbus/srcCxx/ModbusAdapterConfiguration.cxx:353-413 | for every factor and offset: a value is written iff the registers are holding ones and offset + value * factor lies in the range and in the list; the words carry that number, as two's complement of its integer part or in single precision |
| ModbusCodec.EncodeAllLayout | plugins/adapters/modbus/srcCxx/ModbusAdapterConfiguration.cxx:347-424 | element i occupies exactly registers i*step to (i+1)*step of the block |
| ModbusCodec.EncodeAllOk | plugins/adapters/modbus/srcCxx/ModbusAdapterConfiguration.cxx:309-360 | a vector is encoded exactly when every value is accepted |
| ModbusCodec.EncodeAllExactly | plugins/adapters/modbus/srcCxx/ModbusAdapterConfiguration.cxx:347-424 | a vector is encoded iff every transformed value is acceptable and the registers can be written |
| ModbusCodec.EncodeAllTransforms | plugins/adapters/modbus/srcCxx/ModbusAdapterConfiguration.cxx:347-424 | slot i of the block carries offset + value i * factor |
| ModbusCodec.GetRegistersValue | plugins/adapters/modbus/srcCxx/ModbusAdapterConfiguration.cxx:347-424 | succeeds iff every offset + value * factor is acceptable; then slot i of the block carries that number and the rest of the block is unchanged; on rejection exactly the values before the first bad one have been written |
| ModbusCodec.GetFloatValue | plugins/adapters/modbus/srcCxx/ModbusAdapterConfiguration.cxx:426-642 | the loop decodes all n values of the block, or fails when one is rejected |
| ModbusCodec.DecodeAll | plugins/adapters/modbus/srcCxx/ModbusAdapterConfiguration.cxx:432-435 | a block of n values decodes to exactly n numbers |
| ModbusRoundTrip.RoundTripValue | plugins/adapters/modbus/srcCxx/ModbusAdapterConfiguration.cxx:362-568 | without linear transformation, an accepted integer of the kind is encoded and decodes to the cast of its single-precision rounding |
| ModbusRoundTrip.ReadBackRounds | plugins/adapters/modbus/srcCxx/ModbusAdapterConfiguration.cxx:437-568 | below the limit the value comes back as the nearest number with 24 significant bits, with error at most its 2^-24th part, unchanged iff it has 24 significant bits, always for magnitudes up to 2^24; from the limit on the cast is out of range |
| ModbusRoundTrip.ReadBackNarrows | plugins/adapters/modbus/srcCxx/ModbusAdapterConfiguration.cxx:479-489 | the unsigned 16-bit path returns values below 256; above, its final cast is out of range |
| ModbusRoundTrip.RoundTripVector | plugins/adapters/modbus/srcCxx/ModbusAdapterConfiguration.cxx:347-642 | a whole vector written to a block of its size reads back value by value |
| ModbusRoundTrip.RoundTripFloat | plugins/adapters/modbus/srcCxx/ModbusAdapterConfiguration.cxx:384-424 | a value written to floating-point registers comes back rounded to single precision iff the rounded value is acceptable, otherwise reading fails |
| ModbusRoundTrip.RoundTripFloats | plugins/adapters/modbus/srcCxx/ModbusAdapterConfiguration.cxx:347-642 | a whole vector of floating-point values comes back rounded iff all rounded values are acceptable, otherwise reading fails |
| ModbusRoundTrip.ValidValueNotReadBack | plugins/adapters/modbus/srcCxx/ModbusAdapterConfiguration.cxx:569-632 | a configured valid value that can be written but not read |
| ModbusTransform.DecodedInteger | plugins/adapters/modbus/srcCxx/ModbusAdapterConfiguration.cxx:437-568 | holding and input registers, every kind, factor and offset: the number the registers hold, signed or not by the kind of the field, is checked untransformed, and the value is the integer part of the transformed number when the type of the last cast can hold it |
| ModbusTransform.OtherKindsUnread | common/dds_specific/srcCxx/DynamicDataHelpers.cxx:346-367 | fields of any other kind cannot be read from integer registers |
| ModbusTransform.IncomingError | plugins/adapters/modbus/srcCxx/ModbusAdapterConfiguration.cxx:437-635 | the reader's single-precision expression is offset + v * factor up to (|o| + 4 |v f|) 2^-24 + (3 + 2 |f|) 2^-150 |
| ModbusTransform.IntegersExact | plugins/adapters/modbus/srcCxx/ModbusAdapterConfiguration.cxx:437-635 | with whole numbers up to 2^24 at every step it is exact |
| ModbusTransform.WriteThenRead | plugins/adapters/modbus/srcCxx/ModbusAdapterConfiguration.cxx:362-568 | what is written through one element and read through another of the same width is the integer part of what the reader makes of the written number |
| ModbusTransform.ReadUndoesWrite | plugins/adapters/modbus/srcCxx/ModbusAdapterConfiguration.cxx:347-568 | reading through factor 1/f and offset -o/f: the reader makes of the written number the original value, up to that error and the dropped fraction times |1/f| |
| ModbusTransform.ReadUndoesFloat | plugins/adapters/modbus/srcCxx/ModbusAdapterConfiguration.cxx:394-413 | floating-point registers, holding or input: read iff the rounded number is acceptable, and then the original value up to that error |
| ModbusLayout.ConfigurationElement.SetArrayElementsFromConfig | plugins/adapters/modbus/srcCxx/ModbusAdapterConfiguration.cxx:685-713 | the element count follows from the register count; one element is no array; errors change nothing |
| ModbusLayout.ConfigurationElement.FinishParse | plugins/adapters/modbus/srcCxx/ModbusAdapterConfiguration.cxx:1100-1111 | the counts of the parsed element, or an exception |
| ModbusLayout.ParsedShapeWhole | plugins/adapters/modbus/srcCxx/ModbusAdapterConfiguration.cxx:685-702 | a count is accepted iff it is a multiple of the width, and the block then holds n >= 1 whole values iff the count was not negative |
| ModbusLayout.AcceptedSizes | plugins/adapters/modbus/srcCxx/ModbusAdapterConfiguration.cxx:1158-1243 | in terms of the configured count: scalars are accepted iff it is absent or one value wide, arrays iff of one dimension, several elements and exactly its size, sequences iff it holds several values and no more than the bound |
| ModbusLayout.ConsistentSizesFit | plugins/adapters/modbus/srcCxx/ModbusAdapterConfiguration.cxx:1158-1233 | scalars and arrays that pass the check fill their block exactly; a sequence fits iff it is no longer than the configured array |
| ModbusLayout.LongSequenceOverrunsBlock | plugins/adapters/modbus/srcCxx/ModbusAdapterConfiguration.cxx:1222-1233 | a sequence whose bound exceeds the block passes the check and a full one does not fit |
| ModbusStreamWriter.CheckedFieldFits | plugins/adapters/modbus/srcCxx/ModbusAdapterConfiguration.cxx:1158-1233 | after parse and consistency check a field fits its block iff it is not a sequence longer than the configured array; scalars and arrays fill it |
| ModbusStreamWriter.StreamWriter.WriteField | plugins/adapters/modbus/srcCxx/ModbusStreamWriter.cxx:75-166 | one field: slave id switched only when different, one transfer or none, connection state and log as specified by `Block`, whose content is that of `BlockWords` and `BlockCoils` |
| ModbusStreamWriter.StreamWriter.Write | plugins/adapters/modbus/srcCxx/ModbusStreamWriter.cxx:65-170 | all valid samples, element by element, in order |
| ModbusStreamWriter.FieldSendsItsBlock | plugins/adapters/modbus/srcCxx/ModbusStreamWriter.cxx:84-98 | a field sends its own block to its own slave or nothing, and sends it when nothing on the connection fails |
| ModbusStreamWriter.BlockSuppressed | plugins/adapters/modbus/srcCxx/ModbusStreamWriter.cxx:149-165 | a field is suppressed iff unset, or (coils aside) some offset + value * factor is out of range or not in the list, or its registers cannot be written |
| ModbusStreamWriter.RunSendsTransfers | plugins/adapters/modbus/srcCxx/ModbusStreamWriter.cxx:65-170 | without faults a run sends exactly the declared transfers, whatever slave the connection was set to before |
| ModbusStreamWriter.RunSendsAt | plugins/adapters/modbus/srcCxx/ModbusStreamWriter.cxx:65-170 | without faults the transfers sent are those of a strictly increasing list of positions (sample, element) holding exactly the valid samples' fields that are not suppressed |
| ModbusStreamWriter.RunSendsOnlyBlocks | plugins/adapters/modbus/srcCxx/ModbusStreamWriter.cxx:65-170 | whatever fails, a run sends a subsequence of the declared transfers |
| ModbusStreamWriter.SuppressedFieldAlone | plugins/adapters/modbus/srcCxx/ModbusStreamWriter.cxx:151-164 | a suppressed field leaves the transfers of every other field as they are |
| ModbusStreamWriter.BlockWords | plugins/adapters/modbus/srcCxx/ModbusStreamWriter.cxx:147-160 | slot k of a block sent carries offset + value k * factor, which passed the checks, or holds zeros behind the last value |
| ModbusStreamWriter.BlockCoils | plugins/adapters/modbus/srcCxx/ModbusStreamWriter.cxx:131-142 | a set coil field sends one entry per configured coil: the integers 0 to 255 as they are, zeros behind the last value |
| ModbusStreamWriter.CoilFieldFits | plugins/adapters/modbus/srcCxx/ModbusStreamWriter.cxx:131-135 | a coil field fits iff it has no more values than coils |
| ModbusStreamWriter.SentBlockReadsBack | plugins/adapters/modbus/srcCxx/ModbusStreamWriter.cxx:147-160 | the block of n values sent for an integer field decodes to the field's values rounded to single precision followed by zeros, iff it is full or zero is acceptable; otherwise reading fails |
| ModbusStreamWriter.SentFloatsReadBack | plugins/adapters/modbus/srcCxx/ModbusStreamWriter.cxx:147-160 | the same for floating-point registers, whose rounded values must be acceptable too |
| ModbusStreamWriter.ShortSequencePassesCheck | plugins/adapters/modbus/srcCxx/ModbusAdapterConfiguration.cxx:1222-1233 | a sequence of one value for two registers passes the parse and the size check |
| ModbusStreamWriter.ShortSequenceSendsUncheckedZero | plugins/adapters/modbus/srcCxx/ModbusStreamWriter.cxx:147-160 | it sends a 0 outside the configured range, and its block cannot be read |
| DynamicTypes.DefaultHasType | plugins/transformations/sequence2array/srcCxx/Sequence2ArrayTransformation.cxx:610-611 | a newly created sample has its type |
| DynamicTypes.DefaultIsNew | plugins/transformations/sequence2array/srcCxx/Sequence2ArrayTransformation.cxx:610-611 | and nothing in it is set: initial leaves, unset optional members, the first union member, empty sequences |
| SequenceArray.ImageExactly | plugins/transformations/sequence2array/srcCxx/Sequence2ArrayTransformation.cxx:371-593 | a value is the converted sample iff every position is right: each leaf, member and element at its own position, zeros or defaults behind the last, lengths by kind, at every depth |
| SequenceArray.BulkCopyExactly | common/dds_specific/srcCxx/DynamicDataHelpers.cxx:407-636 | the leaf case: element i of the source is element i of the result, zeros behind it; the length is the array's, the source's for a floating-point sequence, or the reported count |
| SequenceArray.ImageHasType | plugins/transformations/sequence2array/srcCxx/Sequence2ArrayTransformation.cxx:371-479 | a converted sample has the output type |
| SequenceArray.RoundTrip | plugins/transformations/sequence2array/srcCxx/Sequence2ArrayTransformation.cxx:371-593 | with element counts equal to the bounds, arrays to sequences of the same sizes and back restores a sample iff all its unions have a selected member |
| SequenceArray.RoundTripExact | plugins/transformations/sequence2array/srcCxx/Sequence2ArrayTransformation.cxx:371-593 | at every depth, for every element count up to the bound: the round trip restores a sample iff its unions have a selected member and its member arrays of integers are zero beyond the reported count |
| SequenceArray.LeafArrayRestored | common/dds_specific/srcCxx/DynamicDataHelpers.cxx:526-636 | the leaf case: a member array of leaves survives iff what lies beyond the reported element count is zero; a floating-point one always |
| SequenceArray.RebuiltExact | plugins/transformations/sequence2array/srcCxx/Sequence2ArrayTransformation.cxx:371-593 | the other way round, at every depth: sequences to arrays and back restores a sample iff its unions have a selected member, its member sequences of integers have the reported count, and its other sequences their full bound |
| SequenceArrayConvert.ConvertSample | plugins/transformations/sequence2array/srcCxx/Sequence2ArrayTransformation.cxx:371-593 | succeeds iff every collection at every depth fits; the result is the image |
| SequenceArrayConvert.ConvertFields | plugins/transformations/sequence2array/srcCxx/Sequence2ArrayTransformation.cxx:376-392 | the loop over struct members, unset optional members skipped |
| SequenceArrayConvert.ConvertElements | plugins/transformations/sequence2array/srcCxx/Sequence2ArrayTransformation.cxx:375-391 | a collection walked as a sample; indexes beyond the capacity fail |
| SequenceArrayConvert.ConvertMember | plugins/transformations/sequence2array/srcCxx/Sequence2ArrayTransformation.cxx:390-472 | one member of any kind: size check, bulk copy, or recursion |
| SequenceArrayConvert.ConvertCollection | plugins/transformations/sequence2array/srcCxx/Sequence2ArrayTransformation.cxx:423-437 | the loop over composite elements: converted prefix, defaults behind it |
| SequenceArrayConvert.CopyPrimitiveElements | common/dds_specific/srcCxx/DynamicDataHelpers.cxx:407-517 | resize and set, floating-point vectors set twice: every leaf at its own position, zeros behind the last, and the length by kind |
| SequenceArrayConvert.Transform | plugins/transformations/sequence2array/srcCxx/Sequence2ArrayTransformation.cxx:596-616 | a batch succeeds iff every sample fits, and converts each, position by position |
| TypeCompatibility.AlignedAccepted | plugins/transformations/sequence2array/srcCxx/Sequence2ArrayTransformation.cxx:39-335 | every aligned pair of types with the same names is accepted |
| TypeCompatibility.AcceptedExactly | plugins/transformations/sequence2array/srcCxx/Sequence2ArrayTransformation.cxx:39-335 | a pair is aligned with the same names iff it is accepted and meets what the check never looks at: kinds of composite members, member order, optional flags, union labels, kind of output collection, leaf type of its elements |
| TypeCompatibility.AcceptsMismatchedPairs | plugins/transformations/sequence2array/srcCxx/Sequence2ArrayTransformation.cxx:44-50 | a struct paired with anything but a struct, and collections of different leaf types, are accepted too |
| TypeCompatibility.PermutedMembersAccepted | plugins/transformations/sequence2array/srcCxx/Sequence2ArrayTransformation.cxx:97-98 | any reordering of the members of a struct is accepted |
| TypeCompatibility.ReorderedMembersMisplaced | plugins/transformations/sequence2array/srcCxx/Sequence2ArrayTransformation.cxx:371-392 | two leaf members in the other order are not copied by name, and are aligned only if their types are equal |
| TypeCompatibility.ReorderedMembersSwapped | plugins/transformations/sequence2array/srcCxx/Sequence2ArrayTransformation.cxx:371-392 | then each value ends up under the other member's name |
| Glob.SimpleMatches | plugins/processors/fwd/srcCxx/ForwardingEngine.cxx:43-50 | for patterns without brackets and escapes, matching can be read off the text |
| Glob.RangeMatches | plugins/processors/fwd/srcCxx/ForwardingEngine.cxx:43-50 | a range matches one character between its ends, the rest of the pattern the rest |
| Glob.NegatedMatches | plugins/processors/fwd/srcCxx/ForwardingEngine.cxx:43-50 | a negated bracket expression matches any other character |
| Glob.EscapeMatches | plugins/processors/fwd/srcCxx/ForwardingEngine.cxx:43-50 | an escaped character matches itself |
| Glob.UnclosedMatches | plugins/processors/fwd/srcCxx/ForwardingEngine.cxx:43-50 | an opening bracket that nothing closes matches itself |
| Glob.SubsumesSound | plugins/processors/fwd/srcCxx/ForwardingEngine.cxx:43-50 | a pattern that matches another's text without a `?` standing for a `*` matches whatever the other matches |
| Glob.InstanceFor | plugins/processors/fwd/srcCxx/ForwardingEngine.cxx:43-50 | every text a pattern matches has one of finitely many instances standing in for it: every shorter pattern without the fill character that matches the instance matches the text |
| Glob.CoverageDecided | plugins/processors/fwd/srcCxx/ForwardingEngine.cxx:43-50 | one pattern covers another iff it matches finitely many instances of it |
| MatchingTable.FindFrom | plugins/processors/fwd/srcCxx/ForwardingEngine.cxx:52-63 | the first matching entry, or no entry matches |
| MatchingTable.Table.FindEntry | plugins/processors/fwd/srcCxx/ForwardingEngine.cxx:52-63 | the search loop returns the first match |
| MatchingTable.Table.Add | plugins/processors/fwd/srcCxx/ForwardingEngine.cxx:65-77 | a rule whose text is matched replaces that entry's output, otherwise it is appended |
| MatchingTable.Table.FromMatchingTable | plugins/processors/fwd/srcCxx/ForwardingEngine.cxx:80-93 | the table of all rules added in order |
| MatchingTable.BuiltNoneShadowed | plugins/processors/fwd/srcCxx/ForwardingEngine.cxx:65-93 | in a built table no pattern matches the text of a later one, for any match relation |
| MatchingTable.LookupGivesLastOutput | plugins/processors/fwd/srcCxx/ForwardingEngine.cxx:52-93 | a found key gets the output of the last configured rule whose text has the same first match |
| MatchingTable.FoundIffSomeRule | plugins/processors/fwd/srcCxx/ForwardingEngine.cxx:52-93 | what is found some rule matches; conversely if merges cover the key |
| MatchingTable.StarOnlyCoverage | plugins/processors/fwd/srcCxx/ForwardingEngine.cxx:43-93 | with `*` as only wildcard a key is found iff some configured rule matches it |
| MatchingTable.CoverageKept | plugins/processors/fwd/srcCxx/ForwardingEngine.cxx:43-93 | with `?` and `*`, for any rule list: the table finds exactly the keys some rule matches iff it finds finitely many instances of the rules |
| MatchingTable.QuestionMarkLosesCoverage | plugins/processors/fwd/srcCxx/ForwardingEngine.cxx:65-77 | "?" followed by "*" loses keys |
| ForwardingEngine.Engine.CacheInputMember | plugins/processors/fwd/srcCxx/ByInputValueForwardingEngine.cxx:222-260 | the nested cache after the call and the entry returned, exceptions included |
| ForwardingEngine.Engine.GetForwardingKey | plugins/processors/fwd/srcCxx/ByInputValueForwardingEngine.cxx:203-220 | key and cache as specified, for both engines |
| ForwardingEngine.KeyExactly | plugins/processors/fwd/srcCxx/ByInputValueForwardingEngine.cxx:135-220 | the key is the input's name, or the formatted text of the sample's own value of the member configured for the input; without such a member, value or format there is none |
| ForwardingEngine.DestinationExactly | plugins/processors/fwd/srcCxx/ForwardingEngine.cxx:138-165 | a sample reaches an output iff it has a key, the first entry matching the key names the output, and the output exists and takes the sample |
| ForwardingEngine.CachedKeyIsFresh | plugins/processors/fwd/srcCxx/ByInputValueForwardingEngine.cxx:135-260 | if the cache agrees with the types, the cached key equals the fresh one and the cache still agrees |
| ForwardingEngine.HistoryKeepsKeysFresh | plugins/processors/fwd/srcCxx/ByInputValueForwardingEngine.cxx:135-260 | after any history of samples and failures |
| ForwardingEngine.CacheHoldsFirstKind | plugins/processors/fwd/srcCxx/ByInputValueForwardingEngine.cxx:222-260 | after any history the cache entry is the kind of the member in the first sample of the input whose type supports it |
| ForwardingEngine.FreshKeyExactly | plugins/processors/fwd/srcCxx/ByInputValueForwardingEngine.cxx:135-260 | after any history of samples of any types, the cached key is the fresh one for every formatting iff the member still has the kind first seen, where the sample has the member set |
| ForwardingEngine.MixedTypesBreakKeys | plugins/processors/fwd/srcCxx/ByInputValueForwardingEngine.cxx:251-254 | with two types on one input the cached key can differ |
| ForwardingEngine.Engine.ForwardData | plugins/processors/fwd/srcCxx/ForwardingEngine.cxx:138-165 | one sample: one delivery or none, nothing else changes |
| ForwardingEngine.Engine.ForwardSamples | plugins/processors/fwd/srcCxx/ForwardingEngine.cxx:114-118 | the valid samples of one input are forwarded in order; `ValidSamplesAt` says which these are |
| ForwardingEngine.Engine.OnDataAvailable | plugins/processors/fwd/srcCxx/ForwardingEngine.cxx:96-128 | over all inputs: each output receives exactly the data at a strictly increasing list of positions (input, sample) holding all those whose take succeeded, whose sample is valid and whose destination is the output; the cache stays in agreement with the types |
| ForwardingEngine.BatchPositions | plugins/processors/fwd/srcCxx/ForwardingEngine.cxx:99-118 | a batch lists the data of exactly the valid samples of the inputs whose take succeeds, in order |
| ForwardingEngine.ValidSamplesAt | plugins/processors/fwd/srcCxx/ForwardingEngine.cxx:114-118 | of one input: exactly the valid samples, in order |
| ForwardingEngine.OutputReceives | plugins/processors/fwd/srcCxx/ForwardingEngine.cxx:96-165 | what an output receives from a batch, position by position |
| ForwardingEngine.OutputReceivesFilter | plugins/processors/fwd/srcCxx/ForwardingEngine.cxx:96-165 | each output receives the order-preserving filter of the batch |
| ForwardingEngine.FailedSampleAlone | plugins/processors/fwd/srcCxx/ForwardingEngine.cxx:145-164 | a sample that reaches no output can be removed without changing any delivery |
| ForwardingEngine.ForwardedIffSomeRule | plugins/processors/fwd/srcCxx/ForwardingEngine.cxx:43-165 | with `*`-only rules a sample is forwarded iff some rule matches its key, and where to |
| SamplePool.Transformation.Transform | common/transformation/srcC/Transformation.c:411-537 | pool, store and result of a call, with the invariant kept and the count of valid inputs |
| SamplePool.Transformation.FillSlots | common/transformation/srcC/Transformation.c:462-513 | the loop over the inputs, stopping at the first failure |
| SamplePool.Transformation.ReturnLoan | common/transformation/srcC/Transformation.c:539-564 | the first `count` samples are cleared and the loan ends |
| SamplePool.Transformation.Finalize | common/transformation/srcC/Transformation.c:356-384 | every sample of the pool is deleted |
| SamplePool.StepKeepsInv | common/transformation/srcC/Transformation.c:356-564 | every operation keeps the pool distinct, complete and free of deleted samples |
| SamplePool.RunKeepsInv | common/transformation/srcC/Transformation.c:356-564 | and so does every run |
| SamplePool.RunDeletesEachOnce | common/transformation/srcC/Transformation.c:356-384 | after any run and `finalize`, each sample ever created was deleted exactly once |
| SamplePool.BatchExact | common/transformation/srcC/Transformation.c:462-535 | any batch, failed ones included: when it succeeds, and what every slot holds afterwards as a function of input and old content |
| SamplePool.RoundKeepsClean | common/transformation/srcC/Transformation.c:462-564 | transform and return leave a clean pool clean iff nothing written stays behind uncleared |
| SamplePool.CleanRuns | common/transformation/srcC/Transformation.c:411-564 | the pool is clean throughout a session iff every batch leaves nothing |
| SamplePool.LeavesNothingExactly | common/transformation/srcC/Transformation.c:512-535 | a successful batch with its valid inputs first leaves nothing; for a plug-in that always writes, iff; a failed one iff the plug-in was never called |
| SamplePool.BatchCorrect | common/transformation/srcC/Transformation.c:462-521 | in such a session a successful batch hands out at index i what the plug-in makes of input i and an empty sample, and the count is the input count iff all inputs are valid |
| SamplePool.OverwritingBatchCorrect | common/transformation/srcC/Transformation.c:462-521 | for a plug-in that ignores the old content, the same after any run of operations |
| SamplePool.OrderlySession | common/transformation/srcC/Transformation.c:411-564 | sessions of successful batches with their valid inputs first are such sessions |
| SamplePool.FailedBatchLeaks | common/transformation/srcC/Transformation.c:524-532 | after a failed batch the next one sees its leftovers |
| SamplePool.InvalidFirstLeaks | common/transformation/srcC/Transformation.c:467-519 | so does the batch after one with a valid input behind an invalid one |
| SamplePool.LoanBlocksTransforms | common/transformation/srcC/Transformation.c:432-438 | after any run that ends with a successful batch, every further `transform` fails and the state stays as it is, until a return |
| SamplePool.CountValidBound | common/transformation/srcC/Transformation.c:512-519 | the returned count equals the input count iff all inputs are valid |
| SamplePool.CountValidExactly | common/transformation/srcC/Transformation.c:512-519 | the returned count is the number of valid inputs |
| SamplePool.CountedSlotsAreValid | common/transformation/srcC/Transformation.c:467-519 | the counted slots all belong to valid inputs, and no valid input lies beyond them, iff the valid inputs come first |
| JsonText.RewritingKeepsTokens | plugins/transformations/json/srcC/JsonTransformation.c:492-498 | newline rewriting preserves the token sequence iff no string literal holds a raw newline; never its length |
| JsonText.LiteralIsOneToken | plugins/transformations/json/srcC/JsonTransformation.c:492-498 | a string literal, escaped quotes and backslashes included, is one token of the text |
| JsonText.RunIsOneToken | plugins/transformations/json/srcC/JsonTransformation.c:492-498 | so is any other maximal run of characters; structural characters stand alone, space separates |
| JsonText.ReplaceNewlines | plugins/transformations/json/srcC/JsonTransformation.c:494-497 | the in-place loop terminates and changes exactly the newlines before the terminator |
| JsonTransport.DdsSequence.SetFromString | common/dds_specific/srcC/DynamicDataHelpers.c:196-320 | what reaches the sequence member, when it fails, and whether the loan remains |
| JsonTransport.DdsSequence.LaterCallsFail | common/dds_specific/srcC/DynamicDataHelpers.c:222-245 | once the loan remains, every later call fails, even where the library would not refuse |
| JsonTransport.DdsSequence.AssertNulTerminator | common/dds_specific/srcC/SequenceHelpers.c:21-100 | fails iff the sequence is empty; otherwise it ends in a terminator, added only if missing |
| JsonTransport.DdsSequence.GetContiguousBuffer | common/dds_specific/srcC/DynamicDataHelpers.c:102-194 | the C string of a received sequence |
| JsonTransport.RoundTripSequence | common/dds_specific/srcC/DynamicDataHelpers.c:102-320 | text is accepted iff what is sent fits, and read back unchanged unless empty with no room for the terminator |
| JsonTransport.RoundTripString | plugins/transformations/json/srcC/JsonTransformation.c:720-768 | a string read with a buffer prepared for the member comes back iff the member is unbounded or the string is shorter than the bound; one that fills the bound is refused |
| JsonTransport.RoundTripArray | plugins/transformations/json/srcC/JsonTransformation.c:579-621 | text that fits an array with its terminator is read back iff the array fits the reader's buffer, whatever the buffers hold behind it |
| JsonTransport.MemberHolds | plugins/transformations/json/srcC/JsonTransformation.c:500-642 | what the member holds once a text is written: a string the text, a sequence the text and a terminator unless the text alone takes the reported size, an array both with zeros behind the used part |
| JsonTransport.WrittenTextIsReadBack | plugins/transformations/json/srcC/JsonTransformation.c:673-816 | for every kind of member: exactly which written texts are read back unchanged; the others fail |
| JsonTransformation.Serializer.FormatIntoBuffer | plugins/transformations/json/srcC/JsonTransformation.c:454-490 | at most two formatter calls; succeeds iff unbounded or large enough; the new buffer size |
| JsonTransformation.Serializer.Serialize | plugins/transformations/json/srcC/JsonTransformation.c:435-642 | when it succeeds, the value of the member, buffer content and size, and exactly when the sequence keeps a loan |
| JsonTransformation.Deserializer.ReadString | plugins/transformations/json/srcC/JsonTransformation.c:720-768 | at most two reads; a bounded string is refused iff it leaves no room for the terminator |
| JsonTransformation.Deserializer.ReadArray | plugins/transformations/json/srcC/JsonTransformation.c:673-717 | the C string of the array over the head of the buffer, refused iff the array is larger |
| JsonTransformation.Deserializer.Deserialize | plugins/transformations/json/srcC/JsonTransformation.c:644-805 | the text handed to the parser, for every kind of member |
| JsonTransformation.SendAndReceive | plugins/transformations/json/srcC/JsonTransformation.c:435-805 | serializer then deserializer of the same member, in any state: whether the sample is sent, what arrives, sizes and loan afterwards, ready for the next sample |
| JsonTransformation.SendAll | plugins/transformations/json/srcC/JsonTransformation.c:435-805 | any run of samples: which are sent, what arrives for each, the buffer size and whether the loan remains |
| JsonTransformation.RunDelivers | plugins/transformations/json/srcC/JsonTransformation.c:435-805 | sample k of a run is sent iff its text leaves room for the terminator and neither formatter nor library refuses it nor, for a sequence, an earlier one; what is sent arrives, except an empty text without terminator in a sequence |
| JsonTransformation.LoanLeftByRefusal | common/dds_specific/srcC/DynamicDataHelpers.c:222-245 | over a run the loan remains iff the library refused a formatted sample for a sequence member |
| JsonTransformation.RefusedSetStopsMember | common/dds_specific/srcC/DynamicDataHelpers.c:234-245 | two samples, the first refused: the second would pass alone and does not pass after it |
| JsonTransformation.SendableExactly | plugins/transformations/json/srcC/JsonTransformation.c:454-490 | a member takes exactly the texts shorter than its length that are not refused |
| JsonTransformation.RunBufferSize | plugins/transformations/json/srcC/JsonTransformation.c:467-485 | over any run the buffer size is the largest of the initial size and the sizes needed so far |
| JsonTransformation.EmittedTokens | plugins/transformations/json/srcC/JsonTransformation.c:492-498 | the emitted text has the formatter's tokens iff newlines are kept or harmless |
| JsonTransformation.Serializer.constructor | plugins/transformations/json/srcC/JsonTransformation.c:209-283 | the first buffer has the configured size for an unbounded member, the member's length otherwise |
| JsonTransformation.Deserializer.constructor | plugins/transformations/json/srcC/JsonTransformation.c:209-283 | the same, and none for a sequence |
| DottedPath.SplitString | common/utils/srcCxx/UtilsStrings.hpp:33-62 | the loop computes the parts between delimiters |
| DottedPath.JoinSplit | common/utils/srcCxx/UtilsStrings.hpp:33-62 | joining the parts restores the string; parts are free of the delimiter |
| DottedPath.SplitJoin | common/utils/srcCxx/UtilsStrings.hpp:33-62 | splitting a join of delimiter-free parts returns them |
| DottedPath.GetMemberTypeBySplitting | common/dds_specific/srcCxx/DynamicDataHelpers.cxx:369-397 | follows the parts of the path through structs |
| DottedPath.GetMemberTypeByTokens | common/dds_specific/srcC/DynamicDataHelpers.c:22-100 | follows the non-empty parts through structs and unions |
| DottedPath.PathNamesMember | common/dds_specific/srcCxx/DynamicDataHelpers.cxx:369-397 | with distinct member names: the path of a member's name gives its type, and name, dot, rest gives what rest gives in that type; through structs in both lookups, through unions in the tokenizing one |
| DottedPath.PathNamesNothing | common/dds_specific/srcCxx/DynamicDataHelpers.cxx:369-397 | a path that starts with a name no member has gives nothing |
| DottedPath.LookupsAgreeExactly | common/dds_specific/srcC/DynamicDataHelpers.c:22-100 | for every path: the two lookups agree iff tokenizing finds nothing, or the path has no empty part and stays clear of unions; otherwise splitting finds nothing |
| DottedPath.SplittingImpliesTokenizing | common/dds_specific/srcC/DynamicDataHelpers.c:42-92 | without empty parts, what splitting finds tokenizing finds |
| DottedPath.EmptyPartsDiffer | common/dds_specific/srcC/DynamicDataHelpers.c:65-90 | for the path "." splitting fails and tokenizing returns the type itself |

## Left out

- KafkaHandshake.RunKeepsInv: of deleting a reader only the request to stop is modelled, not what is freed afterwards; fairness is not modelled; the protocol is a step system, not a class, because its threads interleave.
- ModbusCodec.GetRegistersValue: the writer's transformation is computed exactly; the rounding of long double in it is not modelled, nor are vectors longer than the block.
- ModbusCodec.GetFloatValue: single-precision overflow to infinity is not modelled; the byte orders of libmodbus's float helpers are parameters.
- ModbusLayout.ConsistentSizesFit: only the size part of the consistency check; the data-type compatibility table, the enum check and the lower range bound (which the code sets on a copy of the element, so without effect) are flat case distinctions.
- SequenceArrayConvert.ConvertSample: samples are values, so loans and aliasing are not captured; multidimensional arrays, type aliases and string elements are not covered, and the types are assumed aligned.
- SequenceArray.RoundTripExact: element counts above the bound of a sequence, which the library cannot store, are not covered.
- MatchingTable.CoverageKept: the coverage theorems are about `*` and `?`; for bracket expressions and escapes only what they match is stated.
- ForwardingEngine.Engine.GetForwardingKey: the printf formats of member values are a parameter.
- SamplePool.Transformation.Transform: samples are handles into a store rather than heap objects; the routing service is taken to return exactly the list and count it was given.
- JsonTransformation.Serializer.FormatIntoBuffer: failed allocations and 32-bit overflow of sizes are not modelled.
- Sharing one Modbus connection between streams, the Modbus stream reader's threads, and the mutex wrappers.
- The field transformation plug-in, the MQTT adapter, configuration and property parsing, plug-in creation and deletion, logging, examples and utilities.
