# EmbX plan interpreter: a verified model

EmbX describes binary formats by plans. A plan is executed twice: the encoder writes a logical value
and the decoder reads bytes. The plan builder makes static promises about both: how many bytes a
struct can take, that every symbol is declared before it is used, and what type each expression has.
This project models the two interpreters, the analyses and the code around them, and proves how they
relate.

## How the model is laid out

- `Bytes`, `Expr`, `Plan`: byte packing, the expression evaluator, plans and values. Integers carry
  their C++ width and tag; every guard of the evaluator is written out.
- `Decode`, `Encode`: what the two interpreters compute, as functions with every error case.
- `Format`, `FormatRead`, `FormatComplete`: what the bytes of an input mean, as a relation without a
  reader, and that the decoder finds exactly that. `EncodeFormat`: what the encoder accepts and leaves.
- `Reader`, `Writer`, `Decoder`, `Encoder` (with `Checks`): the interpreters in the form of the
  source, classes that update a position, a byte order, a stack of limits, an environment and a
  recursion counter. Each method is proved equal to the function that describes it, failures
  included.
- `Logical`, `Prunes`: the value that an encode stands for, without bytes, and how it differs from
  the given one.
- `Strict`, `BitPacking`, `RoundTrip`, `Reproduce`: the round trips in both directions, for strict runs.
- `Steady`, `Canonical`, `Skipped`: the same for runs as they are, on fragments of plans.
- `PositionFree`: encoding does not depend on the position without `align` and `at`.
- `Bounds`, `Grid`, `BoundsSound`, `BoundsDecode`: the static size bounds, where alignments agree with
  them, and their soundness. `BoundsTight`, `BoundsDefined`: that no closer bounds hold of all layouts,
  and which types have bounds.
- `Dependencies`, `DependenciesSound`, `DependenciesExact`: declaration order, what it promises and what
  it accepts. `Typing`, `TypingSound`, `TypingTight`, `EncodeTyped`: the same for expression types.
  `Constants`, `Exact`: constant resolution and the exactness of evaluation.
- `Digraph`, `LayoutGraph`, `LayoutGraphBuild`, `LayoutGraphBuilder`, `LayoutEdges`, `StructOrder`: the
  graph algorithms and the graphs they run on.
- `Arrays`, `ArrayEncoding`, `Gguf`: array views against the encoder and the GGUF adapter.
- `Printer`, `Generated`: the expression printer, and two parts of the generated C++ code.
- `Conditions`, `Examples`: where the code does less than its documentation, exactly when, and inputs
  that show it.

`dafny verify dfyconfig.toml` checks the whole project.

## Strict mode

The two codecs disagree in a few places, so the plain round trip is false. `Decode` and `Encode` have
a flag `strict` that is off for the code as it is. Switched on, it adds tests at those places and
changes nothing else (`Strict.PlainWriteMembers`, `Strict.PlainReadMembers`):

- the byte order of a bits group is already in force, or its storage is one byte;
- the length of a byte string is what the decoder will evaluate, or what is left of a filled block;
- the output at an element boundary does not look like the terminator, elements take a byte, and the
  sequence is not inside another limit (where the decoder's snapshot is refused);
- values have the tags and object entries that a decode would give; there is no alias and no `at`;
- for a decode: skipped bits and bytes are zero, names of one object are distinct, and the static
  length of a field is the number of bytes it took.

`RoundTrip.EncodeThenDecode` and `Reproduce.DecodeThenEncode` are about strict runs, on every plan.
On fragments of plans strict mode drops out. `Canonical.CanonicalRoundTrip` asks the plan for distinct
names, no aliases, no `at`, one byte order unless its bits groups take one byte each, terminators without
a reachable border, `bytes[*]` only at the end of a block that has to be filled, and element sequences
only outside blocks and other sequences; and it asks the value for the lengths of its dynamic byte strings
and for elements that do not begin like the terminator. `Canonical.DataRoundTrip` asks nothing of a run.
`Skipped.CleanDecodeThenEncode` is the other direction: the input has zeros where the decoder skips.
`Conditions` says when each test is met.

## Where the code and its promises differ

- The documentation asks that every turn over a terminated sequence makes progress (its
  section on element progress). The decoding loop does not enforce it, and an element of no bytes keeps
  it running; the model reports `NoProgress` there (`Conditions.TurnStallsWhenEmpty`,
  `Examples.EmptyElementStalls`).
- An element that looks like the terminator is written and read as the end
  (`Conditions.SequenceReadsBackWhen`, `Examples.ElementLooksLikeTerminator`).
- The length of a byte string is compared with fixed extents only, and a short block is padded behind
  a `bytes[*]` (`Conditions.TextReadsBackWhen`, `Conditions.DynamicLengthReadsBackWhen`,
  `Examples.DynamicLengthIsNotChecked`).
- A bits group is written in its own order and read in the one in force (`Conditions.GroupSurvives`,
  `Examples.GroupInOtherOrder`).
- The static length of an array counts elements, and the encoder compares it with bytes
  (`Conditions.StaticLengthCountsElements`, `Examples.ShortsAreRefused`).
- Bounds treat nested alignments as relative, runs treat them as absolute
  (`Conditions.ListStands`, `Examples.NestedAlignBreaksBounds`); at starts that are multiples of the
  alignment the bounds hold (`Conditions.NestedListWithinBounds`, `BoundsSound.EncodeWithinBounds`).
- `bytes` without an extent is bounded by one byte (`Examples.PlainBytesBreakBounds`).
- The printer gives `&&` a higher precedence than `||`; the grammar gives both one level
  (`Printer.GrammarReadsBack`, `Printer.ReadingChangesValue`).
- Enum items and signed bits fields are bound with the other integer tag than their type says
  (`TypingSound.ItemCarriesWhen`, `TypingSound.BitsFieldCarriesWhen`, and the inputs beside them).
- Arithmetic on a truth value and a double has no static type, and the evaluator computes it
  (`TypingTight.BinaryTypeIsTight`).
- String literals are accepted as the expression of a virtual field, and have no value
  (`TypingSound.StringsHaveNoValue`, `TypingSound.StringVirtualIsAccepted`).
- A value of another kind, given for an alias of a field that is already available before the member list
  of the alias, is bound to the field, and an accepted expression may then be refused
  (`EncodeTyped.BindingKeepsTypes`, `EncodeTyped.EncodeIsTyped`, `Examples.AliasBreaksKinds`).
- A struct that only a conditional holds may be emitted after its user
  (`StructOrder.HeldStructsComeFirst`, `StructOrder.ConditionalsAreNotOrdered`).

## Model

| member | source | states |
|---|---|---|
| Exact.ArithmeticIsExact | src/runtime/ExpressionEvaluator.cpp:97-148 | `+ - * / %` on two integers succeed exactly when the operands are admissible (one tag, or the signed one not negative) and the mathematical result, with a quotient cut toward zero, exists and fits the result tag; then that is the result. Each other case has its own error. |
| Exact.NegationIsExact | src/runtime/ExpressionEvaluator.cpp:192-199 | Negation of either tag succeeds exactly when the mathematical result is an int64, and returns it. |
| Exact.ComparisonIsExact | src/runtime/ExpressionEvaluator.cpp:89-118 | An integer comparison of admissible operands is the mathematical one; otherwise it is a mixed-sign error. |
| Exact.EvalIsExact | src/runtime/ExpressionEvaluator.cpp:182-214 | For every expression without floats and every environment: a value is the value over the unbounded integers, and where the unbounded value exists only a width error (overflow, mixed signs, literal too large) can replace it. |
| Exact.SizeIsExact | src/runtime/ExpressionEvaluator.cpp:226-237 | For every expression and environment: a size is the mathematical value of the integer that the expression gives, if that is not negative; a negative integer, any other kind of value, and a failure of the evaluation are refused, each with its own error. |
| Exact.SizeIsIdeal | src/runtime/ExpressionEvaluator.cpp:182-237 | For whole expressions without floats: a size is the value over the unbounded integers; where that value is a number that is not negative, only a width error can withhold it. |
| Exact.ConditionIsIdeal | src/decoder/Decoder.cpp:257-262 | A condition without floats is its truth over the unbounded integers; where that truth exists, only a width error can withhold it. |
| Exact.SameNumberIsEquality | src/decoder/Decoder.cpp:31-48 | Two values without floats count as the same number exactly when both are integers of one mathematical value or both the same truth value. |
| Expr.ProductFits | src/runtime/ExpressionEvaluator.cpp:54-66 | The four division guards of the signed product reject exactly the products outside int64. |
| Expr.TruncByAbs | src/runtime/ExpressionEvaluator.cpp:127-140 | C++ quotient and remainder are those of the absolute values with the right signs. |
| Expr.EvalMisses | src/runtime/ExpressionEvaluator.cpp:182-190 | A missing-symbol failure names a symbol of the expression that the environment does not bind; no evaluation reports a missing alias or a dependency cycle. |
| Expr.EvalMonotone | src/runtime/ExpressionEvaluator.cpp:182-214 | A value found in an environment is found in every larger one. |
| Bytes.UnpackPack | src/encoder/Encoder.cpp:100-100 | Packing and unpacking in one byte order keeps the number modulo the packed width. |
| Bytes.PackUnpack | src/runtime/Runtime.cpp:39-52 | Unpacking bytes and packing the number gives the bytes again. |
| Terminator.First | src/decoder/Decoder.cpp:94-109 | The first occurrence of a terminator: it occurs there and nowhere before; none means it occurs nowhere. |
| Terminator.ScanStep | src/decoder/Decoder.cpp:96-104 | Looking back after each byte finds the first occurrence at the byte that completes it, and nothing earlier. |
| Plan.ChooseCase | src/decoder/Decoder.cpp:256-256 | The chosen case is the first whose tag equals the discriminator, and no case means that none does. |
| FormatComplete.DecodesWhatLies | src/decoder/Decoder.cpp:234-337 | For every plan, input and parameters: the decoder returns a value and an end exactly when the value lies in the input up to that end. What lies is a relation without a reader: positional digits, extents and sizes of the mathematical value of their expressions and within the limits of the options, the first occurrence of a terminator, the branch whose condition or tag holds, an `at` region at its own offset, a block up to its size, size properties inside a struct, true requirements, and the environment that each member leaves. |
| FormatRead.DecodeLies | src/decoder/Decoder.cpp:314-337 | One half: whatever a decode returns, strict or not, lies in its input. |
| FormatComplete.LyingIsRead | src/decoder/Decoder.cpp:314-337 | The other half: of an input in which a value lies the decoder returns that value and its end; so at most one value lies in an input. |
| FormatRead.ExtentIsTaken | src/decoder/Decoder.cpp:135-176 | A successful read of a byte string or an array with an extent takes as many bytes, or as many items in every dimension, as the mathematical value of the extent. |
| FormatRead.UnpackIsDigits | src/runtime/Runtime.cpp:39-52 | Unpacking bytes in either order gives the number that they write in base 256. |
| FormatRead.PackIsDigits | src/encoder/Encoder.cpp:100-100 | Packed bytes write the number modulo their width in base 256. |
| FormatComplete.AtIsFound | src/decoder/Decoder.cpp:254-254 | An `at` region is read from the bytes at its offset, and the position stays where it was. |
| EncodeFormat.EncodedLies | src/encoder/Encoder.cpp:319-380 | In the output of a strict encode, followed by any bytes, the logical value lies, and no other value does. |
| EncodeFormat.RegionReadsBack | src/encoder/Encoder.cpp:286-286 | An `at` region that the encoder as it is writes at or behind the end of the output reads back at its offset, with the position where it was, all earlier bytes kept and zeros in the gap. |
| EncodeFormat.RegionIsWritten | src/encoder/Encoder.cpp:286-286 | Every `at` region, in front of the end of the output or behind it, is written from its offset over what stands there, and is accepted exactly when the offset is within the limit and its members can be written there. |
| EncodeFormat.AliasGivesField | src/encoder/Encoder.cpp:283-283 | A field that is bound by an alias and not given is written like the same number given for it. |
| EncodeFormat.IntIsWritten | src/encoder/Encoder.cpp:160-162 | An integer of either tag is accepted exactly when its mathematical value is in the range of the type and the bytes fit, and then exactly its digits, in two's complement, are put at the position. |
| EncodeFormat.TextIsWritten | src/encoder/Encoder.cpp:198-203 | A byte string is accepted exactly when it is of the base type, has the mathematical value of a fixed extent as its length, is no longer than the static length, and fits. |
| EncodeFormat.PayloadIsWritten | src/encoder/Encoder.cpp:173-180 | Terminated bytes are accepted exactly when they are no longer than the maximum, the terminator occurs nowhere in them, and both fit. |
| EncodeFormat.SequenceIsWritten | src/encoder/Encoder.cpp:181-196 | A terminated sequence is accepted exactly when its elements can be written one after the other, each ends within the largest payload, and the terminator fits the limit and the static length behind them. |
| EncodeFormat.ArrayIsWritten | src/encoder/Encoder.cpp:204-222 | An array is accepted only with as many items as the mathematical value of its first extent. |
| EncodeFormat.FieldIsWritten | src/encoder/Encoder.cpp:283-283 | A field is taken from the object, or else from its bound symbol; it is accepted exactly when it satisfies its assertion, can be written and takes its static length, and its value is bound to its symbol. |
| EncodeFormat.GroupIsWritten | src/encoder/Encoder.cpp:284-284 | A bits group is accepted exactly when each field is given by an integer that its bits hold and its assertion allows, and the storage fits; then the storage, in the order of the group and with zeros below the fields, holds exactly these integers from the most significant bit on. |
| EncodeFormat.VariantIsWritten | src/encoder/Encoder.cpp:288-288 | A variant is written as the first case whose tag is the discriminator, else as its default, and is refused without one. |
| EncodeFormat.ConditionalIsWritten | src/encoder/Encoder.cpp:289-296 | A conditional is written as the list that the truth of its condition selects. |
| EncodeFormat.BlockIsWritten | src/encoder/Encoder.cpp:287-287 | A block is accepted exactly when its size is within the limit and its members can be written inside it, filling it unless slack is allowed; it ends at its size. |
| EncodeFormat.RunIsWritten | src/encoder/Encoder.cpp:354-380 | A run is accepted exactly when its parameters are the declared ones, each in its range, and its value can be written from an empty output in the environment of the parameters and the values of the module. |
| EncodeFormat.StructIsWritten | src/encoder/Encoder.cpp:319-350 | A struct is accepted exactly when its members can be written in its order with its size properties bound and every requirement is true after them. |
| Decode.AlignUp | src/runtime/Runtime.cpp:32-37 | The next multiple of the alignment: not below, less than one alignment above. |
| Decode.SignExtend | src/runtime/Runtime.cpp:54-62 | Sign extension of n bytes is two's complement. |
| Decode.ReadMembers | src/decoder/Decoder.cpp:234-271 | On success the position moved forward and stayed within the active limit, for every member list and plan; which bytes the members take is FormatComplete.MembersAreFound and FormatRead.MembersAreRead. |
| FormatRead.MembersAreRead | src/decoder/Decoder.cpp:234-271 | What a member list gives lies between the two positions, member after member, under any limit. |
| FormatComplete.MembersAreFound | src/decoder/Decoder.cpp:234-271 | Where members lie one after the other, the decoder gives exactly their entries, environment and end. |
| Encode.WriteMembers | src/encoder/Encoder.cpp:265-313 | On success the position did not move back, the output did not shrink and did not grow past the limit; a strict run only appends. |
| Encode.Put | src/encoder/Encoder.cpp:98-99 | Bytes are put at the position exactly when the limit allows it; they replace what is there and extend the output where they do not fit. |
| Encode.PutZeros | src/encoder/Encoder.cpp:96-97 | Zeros replace what is there where they fit; where the output has to grow it grows by zeros, and the bytes that already stand behind the position are kept. |
| Examples.PaddingKeepsWhatStandsAhead | src/encoder/Encoder.cpp:97-97 | A byte that an `at` wrote ahead survives the alignment that grows the output over it. |
| BitPacking.BitsFieldsReadBack | src/runtime/Runtime.cpp:112-125 | For every list of fields of at most 64 bits and all values in range, every container with the packed low bits gives each value back, with the same environment. |
| BitPacking.GroupReadBack | src/encoder/Encoder.cpp:103-105 | The same through the storage bytes, low-end padding included, whenever the two orders are equal or the storage is one byte. |
| BitPacking.BitsFieldsRewrite | src/encoder/Encoder.cpp:284-284 | Packing the fields that were extracted from a container gives its low bits again. |
| RoundTrip.EncodeThenDecode | src/encoder/Encoder.cpp:319-380 | If the strict encode of v succeeds, the encoder as it is writes the same output, and the decoder on that output followed by any bytes consumes exactly the output and returns the logical value of v: v leaf by leaf, without the entries that no member names and with the virtual fields. This includes element sequences and dynamic byte strings. |
| Logical.EncodeWritesLogicalValue | src/encoder/Encoder.cpp:160-350 | For every plan and value, strict or not: the value that a successful encode stands for is the logical value of what it was given, which is defined without bytes, positions and limits. |
| Prunes.MembersPrune | src/encoder/Encoder.cpp:265-313 | In a strict run every entry that a member list gives is an entry of the given object, pruned in the same way, or has the name of a virtual field; leaves are equal and arrays have the same length. |
| Canonical.CanonicalRoundTrip | src/decoder/Decoder.cpp:277-337 | For every plan of a statically recognizable fragment and every value that is its own logical value, whose byte strings the decoder may allocate and have the lengths of their dynamic extents, and whose sequence elements do not begin like the terminator: if the encode as it is succeeds, the decode of its output followed by anything consumes exactly the output and returns the value. |
| Canonical.DataRoundTrip | src/decoder/Decoder.cpp:277-337 | The same for plain data of a fragment without dynamic extents and element sequences, where the value is checked against the plan alone: its objects have exactly the entries that members name, and its numbers the tags of their types. |
| Canonical.ElementIsClear | src/encoder/Encoder.cpp:181-196 | A sequence element whose leading integer does not begin with the terminator moves the position on, and no later output makes its boundary look like the terminator. |
| Canonical.PlainOps | src/encoder/Encoder.cpp:265-313 | In a fragment without dynamic extents and element sequences nothing further is asked of a value. |
| Canonical.BaseIsItsOwn | src/encoder/Encoder.cpp:319-350 | Such plain data is its own logical value. |
| Reproduce.DecodeThenEncode | src/decoder/Decoder.cpp:314-337 | If the strict decode succeeds (skipped bits and bytes are zero), the decoder as it is gives the same, and the encoder writes exactly the consumed bytes again, with the same final byte order. |
| Skipped.StrictWhenClean | src/decoder/Decoder.cpp:234-332 | On a plan with distinct names, no aliases, no `at` and one byte order (or bits groups of one byte), a decode as it is makes the tests of strict mode exactly when the bits and bytes it skips are zero, blocks without slack are read to their end, and each static length is the number of bytes its field took. |
| Skipped.CleanDecodeThenEncode | src/decoder/Decoder.cpp:314-337 | On such plans the encoder writes the consumed bytes of every such decode again; strict mode does not occur. |
| RoundTrip.SeqReadBack | src/decoder/Decoder.cpp:110-134 | Elements and terminator read back when the output at no element boundary looks like the terminator, even if terminators occur inside elements; a payload of exactly the maximum is accepted on both sides. |
| RoundTrip.BitsReadBack | src/decoder/Decoder.cpp:252-252 | A strictly written bits group reads back with values, environment, position and order. |
| Reproduce.TerminatedBytesRewrite | src/encoder/Encoder.cpp:173-180 | Encoding any payload that was decoded as terminated bytes writes the consumed bytes again, for every terminator. |
| Strict.PlainWriteMembers | src/encoder/Encoder.cpp:265-313 | Strict mode only refuses: where it succeeds, the encoder as it is gives the same output, value and environment. |
| Strict.PlainReadMembers | src/decoder/Decoder.cpp:234-271 | The same for the decoder. |
| PositionFree.MembersMove | src/encoder/Encoder.cpp:265-313 | Without `align` and `at`, a member list encoded behind any other bytes gives the same bytes, values and environment moved there, or the same failure. |
| PositionFree.TypeMoves | src/encoder/Encoder.cpp:167-233 | The same for every type. |
| Conditions.PayloadsReadBack | src/encoder/Encoder.cpp:173-180 | All payloads that the encoder accepts are found again exactly when the terminator has no proper border that a payload within the limit can complete. |
| Conditions.TerminatedBytesReadBackWhen | src/decoder/Decoder.cpp:94-109 | What an encode of terminated bytes wrote reads back, with the reader where the writer stood, exactly when the terminator is first found at its end. |
| Conditions.GroupSurvives | src/decoder/Decoder.cpp:252-252 | The padded containers that a bits group can write, packed in one order and unpacked in another, all survive exactly when the orders are equal or the group is stored in one byte. |
| Examples.GroupInOtherOrder | src/encoder/Encoder.cpp:284-284 | Sixteen bits of value 1 in the order that is not in force are written and read back as 256. |
| Conditions.StaticLengthCountsElements | src/encoder/Encoder.cpp:263-263 | The static length counts elements and is compared with bytes: an array of fixed-size elements with static extents that can be written is accepted exactly when it is empty or its elements take one byte, and refused otherwise. |
| Examples.ShortsAreRefused | src/encoder/Encoder.cpp:263-263 | Two elements of two bytes with the static length 2 are refused. |
| Conditions.TextReadsBackWhen | src/decoder/Decoder.cpp:135-150 | A byte string that the encoder as it is wrote reads back exactly when the decoder takes as many bytes (what is left of the active limit, the evaluated extent, or the static length) and may allocate them; for `bytes[*]` that means a filled block or input. |
| Conditions.DynamicLengthReadsBackWhen | src/decoder/Decoder.cpp:135-150 | A byte string with a dynamic extent that the encoder as it is wrote reads back exactly when the extent evaluates to its length, as a mathematical value by Exact.SizeIsExact, and the decoder may allocate it. |
| Conditions.SeqReadsBackWhen | src/decoder/Decoder.cpp:110-134 | Elements that read back one by one, written as a sequence, read back exactly when no element boundary of the output looks like the terminator. |
| Conditions.SequenceReadsBackWhen | src/encoder/Encoder.cpp:181-196 | The same for the whole element form, with the limit that the reader pushes. |
| Grid.AlignShift | src/plan/PlanBuilder.cpp:1600-1623 | Aligning a position some bytes after a start and aligning those bytes alone agree exactly when the start is a multiple of the alignment, at every extent. |
| Conditions.NestedListWithinBounds | src/plan/PlanBuilder.cpp:1575-1631 | A member list that is written from a multiple of every alignment in it, with nested structs and branches likewise, takes a number of bytes within the bounds that are computed for it from 0. |
| Conditions.ListStands | src/plan/PlanBuilder.cpp:1600-1623 | In a list of fixed size beside whose alignments no struct is aligned, every member and the end stand where the analysis lays them out exactly when the start is a multiple of every alignment in the list. |
| Conditions.TurnStallsWhenEmpty | src/decoder/Decoder.cpp:111-133 | A turn that reads an element of a fixed size within the payload stands still exactly when the size is zero, and then the loop does not end. |
| Examples.EmptyElementStalls | src/decoder/Decoder.cpp:111-133 | A struct without members as the element keeps the loop where it is. |
| Conditions.ElementsAdvance | src/decoder/Decoder.cpp:120-131 | Elements that take at least one byte by their bounds always move on, whether of a fixed size or not. |
| Reader.OwnSnapshot | src/runtime/Runtime.h:67-88 | A reader accepts its own snapshot exactly when no limit is pushed or the innermost enclosing limit is the whole input. |
| Reader.Reader.Restore | src/runtime/Runtime.h:67-88 | `restore` accepts exactly the restorable states, takes over all of them, keeps the limit-stack invariant (position, limit, every enclosing limit and the input size are in order, the outermost is the input), and otherwise changes nothing. |
| Reader.Reader.PushLimit | src/runtime/Runtime.cpp:132-142 | A limit is pushed exactly when it lies within the active one; the invariant is kept. |
| Reader.Reader.TakeBits | src/runtime/Runtime.cpp:112-125 | Bits are taken from the high end of what is left of the container. |
| Writer.Writer.Scatter | src/encoder/Encoder.cpp:100-105 | The byte loop writes exactly the packed number at the position, in either order, and nothing else. |
| Writer.Writer.Bit | src/encoder/Encoder.cpp:104-104 | A value in range is placed below the bits written so far; anything else is refused. |
| Decoder.Decoder.Run | src/decoder/Decoder.cpp:314-337 | The decoder object gives exactly the value, position, byte order or failure of the specification, which succeeds exactly where a value lies (FormatComplete.DecodesWhatLies). |
| Decoder.Decoder.Members | src/decoder/Decoder.cpp:234-243 | The loop over members gathers the specified fields, environment and position, and leaves the limit stack as it found it. |
| Decoder.Decoder.ReadSequence | src/decoder/Decoder.cpp:110-134 | The element loop with its probe, its own limit and its rollback does what the specification says, including which snapshot is refused. |
| Decoder.Decoder.ReadBits | src/decoder/Decoder.cpp:252-252 | The container is read in the order in force and the fields set theirs afterwards. |
| Encoder.Encoder.Run | src/encoder/Encoder.cpp:354-380 | The encoder object writes exactly the output, with position and byte order, or the failure of the specification, whose parts accept exactly what the rows of EncodeFormat say. |
| Encoder.Encoder.Members | src/encoder/Encoder.cpp:265-274 | Aliases are bound first, then the loop over members writes what is specified and leaves the limits as it found them. |
| Encoder.Encoder.BindAliases | src/encoder/Encoder.cpp:126-159 | The alias loop binds targets as specified, with every consistency check. |
| Encoder.Encoder.WriteBlock | src/encoder/Encoder.cpp:287-287 | A block limits, pads and restores as specified. |
| Checks.CountElements | src/decoder/Decoder.cpp:159-176 | The guarded loop gives the first of the specified extents or the specified refusal. |
| Checks.ExtentsWhen | src/decoder/Decoder.cpp:159-176 | The extents of an array are accepted exactly when each is the value of its expression, each of them and each product from the outermost on is within the element limit, and the whole product is within the limit on values. |
| BoundsSound.EncodeWithinBounds | src/plan/PlanBuilder.cpp:1485-1697 | For every plan, value and parameters: if the bounds of a struct exist, `at` stands only in its outermost list, inside an `at` of it or inside blocks, every nested `align` stands in a list whose start is known to be a multiple of it, and byte strings have one extent, then every successful encode has a length within the bounds. |
| BoundsDecode.DecodeWithinBounds | src/plan/PlanBuilder.cpp:1485-1697 | Under the same placement and without `at`, what every successful decode consumes is within the bounds. |
| BoundsSound.TypeFits | src/plan/PlanBuilder.cpp:1633-1697 | What a type writes, from a multiple of what its structs need, takes a number of bytes within its bounds. |
| BoundsSound.MemberLands | src/encoder/Encoder.cpp:275-313 | The position after every member is a multiple of what the placement computes from the position before it and the bounds of the member. |
| BoundsSound.DimsRangeIsProduct | src/plan/PlanBuilder.cpp:1393-1429 | The checked products give the element bounds times the count when every extent is known, and no bound otherwise. |
| BoundsSound.CaseInRange | src/plan/PlanBuilder.cpp:1532-1567 | The bounds of a variant contain those of each case and of the default. |
| Bounds.FixedSizeIsExact | src/plan/PlanBuilder.cpp:632-683 | Whenever the fixed size of a type is known, its bounds are exactly that size. |
| BoundsTight.BoundsAreClosest | src/plan/PlanBuilder.cpp:1485-1697 | For every type with bounds: each layout of it, laid out without values, takes a number of bytes within the bounds; both bounds are met by layouts; and where there is no upper bound, there are layouts beyond every size. |
| BoundsTight.VariantBounds | src/plan/PlanBuilder.cpp:1532-1567 | The bounds of a variant exist exactly when those of all its branches do, and each of them is the bound of one branch. |
| BoundsTight.ConditionalBounds | src/plan/PlanBuilder.cpp:1516-1531 | The same for a conditional and its two lists. |
| BoundsTight.BlockTakesItsSize | src/plan/PlanBuilder.cpp:1502-1506 | A block of static size has that size as both bounds and takes exactly that many bytes in every successful run of either codec; any other block is bounded by zero and nothing. |
| BoundsTight.ExactList | src/plan/PlanBuilder.cpp:1575-1631 | A list whose members all take exactly known sizes, blocks and branches included, has exactly the size of its layout as both bounds. |
| BoundsDefined.TypeIsDefined | src/plan/PlanBuilder.cpp:1633-1697 | A type has bounds only if every name in it resolves without a cycle, its terminated types have a largest payload and its alignments are known; and such a type has bounds unless their 64-bit computation overflows. |
| BoundsDefined.FixedSizeWhen | src/plan/PlanBuilder.cpp:632-683 | A type has a fixed size exactly when it has bounds and is made of fields of fixed size, bits, aliases and known alignments with known extents only. |
| Bounds.ComputeSequence | src/plan/PlanBuilder.cpp:1575-1631 | The loop over the members computes the specified cursor and extent bounds; that they are the closest ones is BoundsTight.BoundsAreClosest. |
| Examples.NestedAlignBreaksBounds | src/plan/PlanBuilder.cpp:1600-1623 | A list with an alignment, written at position 1, takes 4 bytes where its bounds are exactly 5: the placement hypothesis is needed. |
| Examples.NestedPairIsPlaced | src/plan/PlanBuilder.cpp:1575-1631 | The same list in a struct, nested behind four bytes, meets the placement hypothesis, and behind one byte it does not. |
| Examples.PairAtTheRoot | src/plan/PlanBuilder.cpp:1575-1631 | At the root the same list takes exactly the five bytes of its bounds, and the hypotheses of the round trip of plain data and of the bounds theorem hold of it. |
| Examples.PairIsTyped | src/plan/PlanBuilder.cpp:1192-1207 | Its plan meets the hypotheses of the typing theorem and of the dependency theorems. |
| Examples.PlainBytesBreakBounds | src/plan/PlanBuilder.cpp:1646-1646 | `bytes` without an extent is bounded by one byte and written at any length: it is within its bounds exactly when it has one byte. |
| Examples.DynamicLengthIsNotChecked | src/encoder/Encoder.cpp:198-203 | Inputs: a byte string whose length differs from a constant dynamic extent is encoded and never read back. |
| Examples.ElementLooksLikeTerminator | src/decoder/Decoder.cpp:110-134 | An input: an element that equals the terminator is written as an element and read as the end. |
| Dependencies.ValidateMembers | src/plan/PlanBuilder.cpp:797-886 | The loop that threads the available symbols accepts exactly what the specification accepts and ends with the specified symbols. |
| Dependencies.ValidateExpr | src/plan/PlanBuilder.cpp:755-787 | An expression is accepted exactly when each symbol is a builtin, available, or a parameter, constant or enum item of the module. |
| DependenciesExact.PlanIs | src/plan/PlanBuilder.cpp:1192-1207 | A plan is accepted exactly when no member anywhere offends: uses a symbol that is not usable where it stands, declares no symbol, or is an alias of what is not an available field; and no requirement uses a symbol that is not usable after the members. |
| DependenciesExact.MembersAre | src/plan/PlanBuilder.cpp:797-886 | A member list is accepted exactly when none of its members offends, each with what the members before it declare; what is available after it is what was available before and all it declares, without what stands in branches. |
| DependenciesSound.DecodeFindsEverySymbol | src/decoder/Decoder.cpp:234-332 | On an accepted plan no decode of any input evaluates an unbound identifier other than a builtin, or finds an alias target unavailable. |
| DependenciesSound.EncodeFindsEverySymbol | src/encoder/Encoder.cpp:265-372 | The same for every encode of any value. |
| DependenciesSound.ReadMembersBound | src/plan/PlanBuilder.cpp:797-886 | After the members, the environment binds every symbol that the validator counts as available. |
| Typing.EvalTyped | src/plan/PlanBuilder.cpp:169-271 | In an environment whose values carry their types, an expression of type T gives a value of type T or fails by overflow, division by zero, mixed signs or a missing symbol, never by an operand type. |
| Typing.VisitingMonotone | src/plan/PlanBuilder.cpp:186-231 | The type of an expression does not depend on which virtual fields are being resolved, as long as it has one. |
| TypingTight.BinaryTypeIsTight | src/plan/PlanBuilder.cpp:247-268 | Operands of two kinds have no type together exactly when every pair of their values is refused, or when arithmetic mixes a truth value and a double. |
| TypingTight.NegationTypeIsTight | src/plan/PlanBuilder.cpp:239-246 | The same for negation. |
| TypingTight.LiteralTypeIsTight | src/core/Expr.h:50-76 | A literal has a type with values exactly when it has a value, and then that value is of the type. |
| TypingTight.TypesOfNumbers | src/plan/PlanBuilder.cpp:22-54 | Whatever a read of a type gives is a number exactly when the type has an expression type. |
| TypingTight.SymbolTypes | src/plan/PlanBuilder.cpp:186-231 | The type of every kind of declaration: builtins, fields, parameters, constants and enum items have theirs, and undeclared symbols none. |
| TypingTight.DeclaredTypes | src/plan/PlanBuilder.cpp:186-231 | Where no field is declared through itself, a virtual field has the type of its expression and an alias that of its target. |
| TypingTight.TypedOpsAre | src/plan/PlanBuilder.cpp:1085-1161 | The type checks accept a member list exactly when every member in it, at any depth, is by itself of the asked types. |
| TypingSound.DecodeIsTyped | src/plan/PlanBuilder.cpp:1085-1161 | A decode of a well-typed program meets no operand of the wrong kind, no size that is not an integer and no condition that is not a boolean, on any input. |
| TypingSound.MembersSane | src/decoder/Decoder.cpp:234-271 | Every member binds its symbol to a value of its type; for virtual fields that is type soundness itself. |
| TypingSound.ScalarTyped | src/plan/PlanBuilder.cpp:22-54 | A scalar that was read has the tag of its declared type. |
| TypingSound.EnumItemsBreakExactTags | src/plan/PlanBuilder.cpp:158-164 | An enum item written as a decimal literal is typed unsigned and bound signed: an expression typed unsigned gives -1. |
| TypingSound.ItemCarriesWhen | src/plan/PlanBuilder.cpp:158-164 | An item, whatever its expression, carries the tag of its enum exactly when the expression has the type of the enum; for a literal that is the signedness of its notation. |
| TypingSound.BitsFieldCarriesWhen | src/decoder/Decoder.cpp:252-252 | A bits field carries the tag of its declared type exactly when that type is unsigned. |
| TypingSound.SignedBitsBreakExactTags | src/decoder/Decoder.cpp:252-252 | An input: a signed bits field of value 1, from which 2 is subtracted, is typed signed and fails. |
| TypingSound.StringsHaveNoValue | src/core/Expr.h:50-76 | An accepted expression of string type has no value in any environment of its types, and no other accepted expression is refused as a literal. |
| TypingSound.StringVirtualIsAccepted | src/plan/PlanBuilder.cpp:1085-1161 | A string literal as a virtual field passes the checks, and every run fails at it. |
| EncodeTyped.EncodeIsTyped | src/encoder/Encoder.cpp:265-372 | On a well-typed program that the dependency validator accepts, no encode meets an operand of the wrong kind, a size that is not an integer or a condition that is not a boolean, provided that in every member list the value reaches, the last value given for an alias of an already available symbol is of the kind of that symbol. |
| EncodeTyped.LocalAliasesAreTyped | src/encoder/Encoder.cpp:265-372 | The same for every value at all, when each alias names a field that is not yet available before the member list of the alias. |
| EncodeTyped.BindingKeepsTypes | src/encoder/Encoder.cpp:126-159 | Binding the aliases of a list keeps an environment well-typed exactly when for every target the last value given for an alias of it has the kind of the type of the target. |
| EncodeTyped.BindingKeepsSeenTypes | src/encoder/Encoder.cpp:126-159 | The same for the symbols that are available before the list: values for targets declared later in it do not matter. |
| EncodeTyped.BindingSucceedsWhen | src/encoder/Encoder.cpp:126-159 | Binding the aliases of a list succeeds exactly when every value given for an alias is a number for a field and equals what is given for its target, what the target is bound to before the list, and what earlier aliases gave it. |
| Examples.AliasBreaksKinds | src/encoder/Encoder.cpp:126-159 | An input as a run: a well-typed, accepted plan with a byte and a branch that has an alias of the byte and a virtual field over it. With 5 for the byte and 5.0 for the alias the encode ends in the operand error. |
| Constants.Resolve | src/plan/PlanBuilder.cpp:1763-1807 | The resolution loop ends; it succeeds exactly when constants refer to constants only, without a cycle, and their equations have a solution, which it returns; a round without progress means a dependency cycle. |
| Constants.SolutionIsUnique | src/plan/PlanBuilder.cpp:1763-1807 | Without a cycle there is one solution at most, so the iteration order does not matter. |
| Constants.FailureIsFinal | src/plan/PlanBuilder.cpp:1793-1797 | An evaluation that fails in some round fails in every solution. |
| LayoutGraph.Validate | src/plan/LayoutGraph.cpp:243-271 | Accepts exactly the graphs with distinct symbols, edges from nodes to declared symbols and no directed cycle. |
| LayoutGraph.Visit | src/plan/LayoutGraph.cpp:262-268 | The three-colour search extends the order of finished nodes by the node, after all its successors, or there is a cycle. |
| LayoutGraphBuild.AcceptedPlansAreAcyclic | src/plan/LayoutGraph.cpp:208-241 | On a plan that the dependency validator accepted, the graph validation can refuse only a SymbolId that is declared twice. |
| LayoutEdges.BuiltGraph | src/plan/LayoutGraph.cpp:42-241 | The built graph has a node for each module value and for each part of the members in their order, and exactly the edges from the node of a member to each symbol other than a builtin that its expressions use, or that it is an alias of. |
| LayoutGraphBuilder.BuildLayoutGraph | src/plan/LayoutGraph.cpp:208-241 | The builder object appends exactly the specified nodes and edges and reports whether the graph is acceptable. |
| LayoutGraphBuilder.Builder.WalkMembers | src/plan/LayoutGraph.cpp:42-127 | The walk over members appends the specified nodes and edges, and node ids stay indices. |
| Digraph.TrapHasCycle | src/plan/LayoutGraph.cpp:262-268 | A finite set each of whose nodes leads to one of its nodes holds a cycle. |
| Digraph.OrderMeansAcyclic | src/codegen/CppGenerator.cpp:634-653 | An order in which targets precede sources excludes cycles. |
| StructOrder.Emit | src/codegen/CppGenerator.cpp:1495-1499 | The order is produced exactly when every by-value type resolves and the collected dependencies (StructOrder.DependenciesAreCollected) are acyclic; it lists each struct once, after its dependencies, whatever order dependencies are visited in; and each such order is produced when the structs are declared in it. |
| StructOrder.Traversal.Visit | src/codegen/CppGenerator.cpp:634-653 | A visit extends the order by the struct and what it needs, and restores the set being visited, or there is a cycle or an unresolved type. |
| StructOrder.HeldStructsComeFirst | src/codegen/CppGenerator.cpp:596-653 | Every emission order lists the structs that a struct holds by value, in conditionals as well, before it exactly when each such holding lies within the closure of the collected dependencies, which are those of StructOrder.DependenciesAreCollected. |
| StructOrder.DependenciesAreCollected | src/codegen/CppGenerator.cpp:596-633 | A struct depends on another exactly when a field or branch of its type, through any chain of type aliases, stands in its members, inside blocks, `at` and variants at any depth but not in a conditional; it holds the other by value exactly when conditionals count as well. |
| StructOrder.HeldIsCollected | src/codegen/CppGenerator.cpp:596-653 | In a module without conditionals the collected dependencies are the holdings, and every emission order lists what a struct holds before it. |
| StructOrder.ResolvesByChain | src/codegen/CppGenerator.cpp:63-81 | A type resolves exactly when a chain of aliases without a repetition leads from it to what is not an alias, and to that. |
| StructOrder.ConditionalsAreNotOrdered | src/codegen/CppGenerator.cpp:608-633 | An input: a struct that only a conditional holds, where the user may be emitted first, and is when it is declared first. |
| Digraph.AllPutTargetsFirst | src/codegen/CppGenerator.cpp:634-653 | All orders of an acyclic graph put the targets of further edges first exactly when each of those edges is a way through the graph. |
| Arrays.ElementAt | src/runtime/Array.h:62-114 | Finds the element exactly when the view is valid, the rank matches and every index is below its extent; the offset is the row-major one and the element lies inside the buffer. Overflow exits are for zero extents only. |
| Arrays.CheckView | src/runtime/Array.h:116-146 | A view is valid exactly when its element size is not zero, no partial product overflows, the count is the product and the buffer has exactly its size. |
| Arrays.CheckedElementCount | src/runtime/Array.h:149-161 | The guarded loop gives the product exactly when no partial product overflows. |
| Arrays.LinearInjective | src/runtime/Array.h:62-114 | Different index vectors have different positions. |
| Arrays.LinearSurjective | src/runtime/Array.h:62-114 | Every slot is the position of an index vector. |
| Arrays.SlotsAreDisjoint | src/runtime/Array.h:62-114 | The byte ranges of different elements do not overlap. |
| ArrayEncoding.ViewAgreesWithEncoding | src/encoder/Encoder.cpp:204-222 | After an encode of an array of fixed-size elements without `align`, the descriptor over the written bytes is a valid view, and at the offset of every index vector stand exactly the bytes of that element encoded alone. |
| ArrayEncoding.MakeArrayDescriptor | src/plan/ArrayDescriptor.cpp:47-85 | The descriptor has the fixed element size and the extents of the environment and is valid; it is refused only for the listed reasons. |
| Gguf.MakeArrayView | course/15_gguf/adapter/Gguf.cpp:226-263 | A view is made exactly when the tensor is scalar, its products fit in both orders and its data lies in the file; it is valid and its buffer is inside the file. |
| Gguf.ReversedIsFastestFirst | course/15_gguf/adapter/Gguf.cpp:253-259 | The reversal makes the row-major position of the view the position with dimension 0 fastest. |
| Gguf.RefusedByReversal | course/15_gguf/adapter/Gguf.cpp:226-263 | A tensor that passes every check of the file is refused exactly when it has no elements and the products of its reversed dimensions overflow. |
| Gguf.ReversalRefusesAnEmptyTensor | course/15_gguf/adapter/Gguf.cpp:253-262 | An input: a tensor with a zero dimension that passes the checks of the file, for which the call gives no view. |
| Printer.PrintIsUnambiguous | src/codegen/SourceGenerator.cpp:32-52 | Two expressions that print to the same tokens are equal up to parentheses and have the same value. |
| Printer.PrintedIsParsed | src/codegen/SourceGenerator.cpp:32-52 | Either precedence reader takes the whole printed form back: the one with the precedences of the printer gives the expression, the one with the order of alternatives of the grammar, a table of its own, the regrouped one. |
| Printer.RanksAgree | src/codegen/SourceGenerator.cpp:19-30 | The precedences of the printer order any two operators as the alternatives of the grammar do, except that they tell logical and from logical or. |
| Printer.BracketsStand | src/codegen/SourceGenerator.cpp:32-52 | Brackets stand exactly around a binary operand that binds less tightly by the order of the grammar, twice around a right operand that binds alike, and around a binary operand of a negation. |
| Printer.GrammarReadsBack | grammar/EmbX.g4:58-65 | The reader that binds by the alternatives of the grammar, where logical and and logical or share one, reads the printed expression back exactly when no bare conjunction is the right operand of a disjunction. |
| Printer.ReadingChangesValue | src/codegen/SourceGenerator.cpp:26-27 | Otherwise the value can change: the printed form of "true or (true and false)" is read as "(true or true) and false". |
| Generated.GetTerminatedBytes | src/codegen/CppGenerator.cpp:562-562 | The generated scan returns the payload and the position of the interpreter, succeeds exactly when it does, and otherwise goes back. |
| Generated.GeneratedDecode | src/codegen/CppGenerator.cpp:1213-1226 | Shifting and masking the raw storage gives the fields that the interpreter takes from the unpadded container. |
| Generated.GeneratedEncode | src/codegen/CppGenerator.cpp:1227-1236 | Masking and shifting the values into place builds the padded container. |
| Generated.ExtractPacked | src/codegen/CppGenerator.cpp:1213-1236 | Extracting from a packed container gives the low bits of every value. |
| Generated.InterpreterPacks | src/encoder/Encoder.cpp:284-284 | The interpreter packs the same container from the same values. |
| Generated.InterpreterReads | src/decoder/Decoder.cpp:252-252 | For every successful read of a group, the value under a name is what the generated code takes from the container for the last field of that name. |

## Left out

- DecodeThenEncode: asks that the skipped bits and bytes are zero and that the plan has no alias, no `at` and one order per bits group, because the encoder writes zeros there and the two codecs differ in the order.
- EncodeThenDecode: is about strict encodes, so that it covers every plan; CanonicalRoundTrip has the form without them.
- CanonicalRoundTrip: leaves to EncodeThenDecode what depends on positions: `bytes[*]` before the end of its block or in a block with slack, elements that are told from the terminator only by what follows their leading integer, and several byte orders beside wide bits groups.
- EncodeWithinBounds: allows `align` and `at` only where the analysis treats their positions as the run does; Examples.NestedAlignBreaksBounds shows why, and ListStands gives the exact condition in lists of fixed size.
- BoundsAreClosest: is about layouts, in which every branch and every length that is not known in advance may occur; whether the expressions of a plan can select them is not decided.
- BinaryTypeIsTight: asks of the floating point unit, which is a parameter, that it does not take 1 for zero.
- RegionReadsBack: is about regions at or behind the end of the output, since one over earlier output may overwrite what was to be read; RegionIsWritten covers every region.
- DataRoundTrip: leaves virtual fields, conditions and variants, whose entries depend on a run, to CanonicalRoundTrip.
- EncodeIsTyped: is about kinds of value and not about tags, because the encoder binds the tags of the values it is given.
- SeqReadsBackWhen: asks that each element alone passes the tests of strict mode, so that it reads back alone.
- DecodeFindsEverySymbol: says nothing of the size builtins, which are bound only where a size is known.
- GetTerminatedBytes: models the generated scan, not the code around it.
- MakeArrayView: takes the element size of a tensor type as given and does not model the GGUF parser.
- At in the round trips: absolute writes may overlap sequential ones.
- Floating point fields and the `scale` transform: a double is an opaque value, and what the floating point unit computes is a parameter of every theorem.
- Callbacks: user code of arbitrary effect.
- Native byte order: it is the order of the host, so it is one of the two orders of the model.
- Exceptions: a thrown exception is a failure result; the state of a codec object after a failure is not specified.
- Parsing, imports, files, diagnostics, documentation, reflection and reports: foreign libraries, input and output, or text.
- Type aliases in executable plans: the builder replaces them before a plan is published, and the codecs refuse the rest.
- `Struct::staticSize` and its layout computation: the bounds are used in its place.
- Resolution of enum item values: one pass in order over the same evaluator; their values are part of the module.
- An alias field that leads back to itself: the type resolution of the source does not end there, the model answers that there is no type.
- Whole generated codecs: only the parts named above; the rest is the emission of text.
