# Verified models of ch-cpp-utils

A Dafny model of the parts of ch-cpp-utils whose correctness is hardest to see
from the code, with proofs of what those parts promise.

- **JSON equality** (`JsonValue`, `Doubles`, `JsonEquality`): which values `==`
  equates, down to the numbers that double patterns stand for.
- **JSON edit scripts** (`JsonPointer`, `JsonPatch`, `JsonPatchLaw`, `JsonDiff`,
  `JsonDiffLaw`, `JsonDiffExact`, `JsonDiffOps`): pointers, `patch`, what each
  operation does, `diff`, and the law `source.patch(diff(source, target)) ==
  target`, with the exact condition under which it holds.
- **Flattening** (`JsonFlatten`, `JsonFlattenLaw`, `JsonRebuild`, `JsonCreate`): a
  tree becomes a map of pointers and is rebuilt in the byte order of the keys.
- **Binary codecs** (`Binary`, `Cbor`, `CborWire`, `CborShortest`, `CborCut`,
  `MsgPack`, `MsgPackWire`, `MsgPackShortest`, `MsgPackCut`): encoders, decoders,
  round trips in context, self-delimitation, and the exact byte language each
  decoder reads.
- **Text** (`Utf8`, `JsonString`, `StringScan`, `StringMeaning`, `JsonLexer`,
  `JsonText`, `JsonTextLaw`, `JsonLayout`, `JsonGrammar`): escaping, the scanner's
  automaton, the printer and its layout, the parser, their round trip, and the
  exact grammar the parser accepts.
- **Thread pool** (`ThreadPool`): workers, queue, condition variable and
  semaphores as a transition system with arbitrary interleaving and spurious
  wake-ups.
- **Directory tree and router** (`DirTree`, `DirTreeKeys`, `DirTreeReport`,
  `DirTreeRuns`, `Router`): a heap trie against a map of paths, what keys name,
  and route lookup against a linear scan.
- **Base64** (`Base64`, `Base64Bits`): the packing loops against numbers in base
  64, and the decoded bytes bit by bit.

Functions are the specification of what the code computes. Code that the library
writes as loops over mutable state is a method (or a class with methods) proved
against those functions, and the laws are lemmas about the functions. Byte
strings are `seq<byte>`; an object is a map whose members are visited in the byte
order of their keys; a double is its 64-bit pattern. Exceptions are the `Err`
case of `Result`. The comparison `==` is the library's own: it casts between
number kinds and is not transitive; `JsonEquality` says exactly what it equates.

Most bodies begin with `hide` statements. They keep definitions that a proof does
not need away from the solver.

`dafny verify dfyconfig.toml` checks the whole project.

## Model

| member | source | states |
|---|---|---|
| `JsonValue.EqReflexive` | src/ch-cpp-utils/third-party/json/json.hpp:5882-5955 | a value is `==` to itself exactly when no NaN occurs in it |
| `JsonValue.EqNeedsNaNFree` | src/ch-cpp-utils/third-party/json/json.hpp:5882-5955 | nothing is `==` to a value that holds a NaN, although `==` casts between number kinds |
| `JsonEquality.EqualIsSame` | src/ch-cpp-utils/third-party/json/json.hpp:5882-5955 | for all values, `==` holds exactly between values of the same shape, keys, strings and booleans whose numbers agree: integers of one kind are equal, a signed and an unsigned one agree modulo 2^64, doubles have the same value, and a double equals an integer when it is the nearest double to it |
| `JsonEquality.EqualIsLowBits` | src/ch-cpp-utils/third-party/json/json.hpp:5882-5955 | for all values without floats, `==` holds exactly when they are identical up to the 64 bits of their integers |
| `JsonEquality.EqualIsEqual` | src/ch-cpp-utils/third-party/json/json.hpp:5882-5955 | for all values without floats whose signed integers are negative and unsigned ones below 2^63, `==` is equality |
| `JsonEquality.WrappedEqual` | src/ch-cpp-utils/third-party/json/json.hpp:5945-5952 | an unsigned integer of 2^63 or more `==` a negative one, so `==` is not equality for all canonical values |
| `Doubles.FloatEqMeaning` | src/ch-cpp-utils/third-party/json/json.hpp:5919-5922 | comparing doubles compares the numbers their patterns stand for; a NaN equals nothing |
| `Doubles.DoubleOfNearest` | src/ch-cpp-utils/third-party/json/json.hpp:5929-5944 | converting a 64-bit integer to double gives the nearest double, ties to even |
| `Doubles.FloatEqInteger` | src/ch-cpp-utils/third-party/json/json.hpp:5929-5944 | a double equals an integer exactly when it is the nearest double to it |
| `Doubles.SmallExact` | src/ch-cpp-utils/third-party/json/json.hpp:5929-5944 | integers below 2^53 in magnitude are converted exactly |
| `JsonPointer.ReplaceSubstring` | src/ch-cpp-utils/third-party/json/json.hpp:12102-12114 | the in-place find-and-replace loop gives the leftmost, non-overlapping replacement of every occurrence |
| `JsonPointer.EscapeInPlace` | src/ch-cpp-utils/third-party/json/json.hpp:12117-12123 | the two replacement passes of `escape`, as a function of the text |
| `JsonPointer.UnescapeInPlace` | src/ch-cpp-utils/third-party/json/json.hpp:12126-12132 | the two replacement passes of `unescape`, as a function of the text |
| `JsonPointer.EscapeIsEach` | src/ch-cpp-utils/third-party/json/json.hpp:12117-12123 | two-pass escaping equals one-pass escaping byte by byte |
| `JsonPointer.UnescapeIsEach` | src/ch-cpp-utils/third-party/json/json.hpp:12126-12132 | two-pass unescaping equals a one-pass scan on every text whose tildes are legal |
| `JsonPointer.UnescapeEscape` | src/ch-cpp-utils/third-party/json/json.hpp:12117-12132 | unescaping an escaped token gives the token back |
| `JsonPointer.EscapeUnescape` | src/ch-cpp-utils/third-party/json/json.hpp:12117-12132 | escaping an unescaped legal token text gives the text back |
| `JsonPointer.CheckEscapes` | src/ch-cpp-utils/third-party/json/json.hpp:12060-12078 | the tilde check accepts exactly the texts in which every tilde is followed by 0 or 1 |
| `JsonPointer.SplitLoop` | src/ch-cpp-utils/third-party/json/json.hpp:12029-12087 | the splitting loop agrees with the recursive tokenizer, errors included |
| `JsonPointer.ToStringLoop` | src/ch-cpp-utils/third-party/json/json.hpp:11693-11701 | the accumulation over tokens agrees with the recursive printer |
| `JsonPointer.SplitToString` | src/ch-cpp-utils/third-party/json/json.hpp:11693-11701 | splitting a printed token list gives the list back, for every list of byte strings |
| `JsonPointer.ToStringSplit` | src/ch-cpp-utils/third-party/json/json.hpp:12029-12087 | splitting succeeds exactly on legal pointer texts, and printing the result gives the text back |
| `JsonPointer.StoiDecimal` | src/ch-cpp-utils/third-party/json/json.hpp:12550 | a printed index reads back as itself exactly when it is below 2^31 |
| `JsonPointer.StoiParts` | src/ch-cpp-utils/third-party/json/json.hpp:12550 | std::stoi on blanks, a sign, digits and any text after them: the signed number if it fits an int, otherwise out of range; invalid without digits |
| `JsonPatch.GetChecked` | src/ch-cpp-utils/third-party/json/json.hpp:11984-12016 | the walk of checked access agrees with recursive resolution, errors included |
| `JsonPatch.PatchLoop` | src/ch-cpp-utils/third-party/json/json.hpp:12472-12731 | the loop over a script agrees with the recursive run of its operations (all six), errors included |
| `JsonPatch.EditConcat` | src/ch-cpp-utils/third-party/json/json.hpp:11888-11930 | an edit below a pointer only replaces the value that the pointer leads to |
| `JsonPatch.UncheckedIsChecked` | src/ch-cpp-utils/third-party/json/json.hpp:11821-11880 | where a pointer resolves, unchecked access makes the same edit as checked access |
| `JsonPatch.PutElsewhere` | src/ch-cpp-utils/third-party/json/json.hpp:11888-11930 | an edit changes nothing that a diverging pointer leads to |
| `JsonPatchLaw.AddInArray` | src/ch-cpp-utils/third-party/json/json.hpp:12541-12565 | `add` at an index of an array of any document inserts the value: one element longer, the others in their order, nothing else changed |
| `JsonPatchLaw.RemoveInArray` | src/ch-cpp-utils/third-party/json/json.hpp:12575-12600 | `remove` at an index takes exactly that element out |
| `JsonPatchLaw.AddedIsThere` | src/ch-cpp-utils/third-party/json/json.hpp:12541-12565 | after `add` the pointer resolves to the value |
| `JsonPatchLaw.AddRemove` | src/ch-cpp-utils/third-party/json/json.hpp:12511-12600 | `add` then `remove` at the same index gives the document back |
| `JsonPatchLaw.RemoveAdd` | src/ch-cpp-utils/third-party/json/json.hpp:12511-12600 | `remove` then `add` of what was there gives the document back |
| `JsonPatchLaw.IndexBeyond` | src/ch-cpp-utils/third-party/json/json.hpp:12548-12556 | beyond the end of an array `add` and `remove` are out of range |
| `JsonPatchLaw.MemberOps` | src/ch-cpp-utils/third-party/json/json.hpp:12533-12591 | `add` and `remove` of a member set and delete that member only, and undo each other |
| `JsonPatchLaw.ReplaceLaw` | src/ch-cpp-utils/third-party/json/json.hpp:12662-12667 | `replace` works exactly where the pointer resolves and changes that value only |
| `JsonPatchLaw.AddLeaves` | src/ch-cpp-utils/third-party/json/json.hpp:12511-12572 | wherever `add` succeeds, even where it creates the way, the pointer resolves to the value exactly unless its last token names no element of an array |
| `JsonPatchLaw.UncheckedElsewhere` | src/ch-cpp-utils/third-party/json/json.hpp:11821-11880 | unchecked access changes nothing that a forking pointer leads to |
| `JsonPatchLaw.MoveLaw` | src/ch-cpp-utils/third-party/json/json.hpp:12669-12685 | `move` equals the `remove` script followed by the `add` script, errors included |
| `JsonPatchLaw.MoveLeaves` | src/ch-cpp-utils/third-party/json/json.hpp:12669-12685 | `move` leaves the value at its target |
| `JsonPatchLaw.CopyLeaves` | src/ch-cpp-utils/third-party/json/json.hpp:12687-12696 | `copy` leaves the value at its target and every forking pointer as it was |
| `JsonPatchLaw.CopyKeepsOriginal` | src/ch-cpp-utils/third-party/json/json.hpp:12687-12696 | `copy` leaves the original resolving to what it did |
| `JsonPatchLaw.Incomplete` | src/ch-cpp-utils/third-party/json/json.hpp:12613-12659 | an operation without a known name, a path, or what the name calls for is refused as an invalid argument |
| `JsonEquality.TestSame` | src/ch-cpp-utils/third-party/json/json.hpp:12698-12719 | `test` succeeds exactly when the pointer resolves to a value of the same content, and changes nothing |
| `JsonDiff.DiffLoop` | src/ch-cpp-utils/third-party/json/json.hpp:12765-12895 | the loops of `diff` emit the specified script |
| `JsonDiff.DiffArrayLoop` | src/ch-cpp-utils/third-party/json/json.hpp:12792-12834 | the three array passes: common indices, removals downward, additions upward |
| `JsonDiff.DiffObjectLoop` | src/ch-cpp-utils/third-party/json/json.hpp:12836-12878 | the two object passes: the source's keys, then the target's new keys |
| `JsonDiffLaw.MergedEqTarget` | src/ch-cpp-utils/third-party/json/json.hpp:12765-12895 | what a script leaves behind is `==` to the target exactly when the target holds no NaN |
| `JsonDiffLaw.RunRemoves` | src/ch-cpp-utils/third-party/json/json.hpp:12807-12819 | removals in descending order keep the indices stable and truncate the array |
| `JsonDiffLaw.RunAdds` | src/ch-cpp-utils/third-party/json/json.hpp:12821-12831 | additions in ascending order append the target's surplus |
| `JsonDiffLaw.DiffRuns` | src/ch-cpp-utils/third-party/json/json.hpp:12765-12895 | in any document holding s at p, the script of diff(s, t, p) runs and its whole effect is to replace the value at p |
| `JsonDiffLaw.DiffBelow` | src/ch-cpp-utils/third-party/json/json.hpp:12765-12895 | every operation of diff(s, t, p) points at or below p, and only a replacement points at p itself |
| `JsonDiffLaw.IndexableAddressable` | src/ch-cpp-utils/third-party/json/json.hpp:12765-12895 | documents whose arrays have at most 2^31 elements never need an index out of reach |
| `JsonDiffExact.DiffFails` | src/ch-cpp-utils/third-party/json/json.hpp:12472-12600 | a script that must name an index of 2^31 or more fails |
| `JsonDiffExact.PatchDiff` | src/ch-cpp-utils/third-party/json/json.hpp:12739-12743 | for every source and target, patch(diff) succeeds exactly when no index of 2^31 or more must be named, and its result is `==` to the target exactly when moreover the target holds no NaN |
| `JsonDiffExact.DiffIsLocal` | src/ch-cpp-utils/third-party/json/json.hpp:12765-12895 | the same at any location of any document, and every diverging location is unchanged |
| `JsonDiffExact.HugeArrayFails` | src/ch-cpp-utils/third-party/json/json.hpp:12739-12743 | the documented law fails for 2^31 + 1 nulls and the empty array |
| `JsonDiffOps.DiffJustified` | src/ch-cpp-utils/third-party/json/json.hpp:12765-12895 | every operation of a diff is called for: it replaces a value by the target's where the two differ and are not containers of one kind, or removes or adds what one of two such containers lacks |
| `JsonEquality.DiffEmpty` | src/ch-cpp-utils/third-party/json/json.hpp:12775-12780 | the diff is empty exactly between values that are the same |
| `JsonEquality.PatchDiffSame` | src/ch-cpp-utils/third-party/json/json.hpp:12739-12743 | the documented law without `==`: the patched value has the target's shape, keys, strings, booleans and numbers exactly when the target holds no NaN |
| `JsonEquality.PatchDiffContent` | src/ch-cpp-utils/third-party/json/json.hpp:12739-12743 | for all documents without floats the patched value is identical to the target up to the 64 bits of integers |
| `JsonEquality.PatchDiffExactly` | src/ch-cpp-utils/third-party/json/json.hpp:12739-12743 | where each integer is stored in one way only, the patched value is the target itself |
| `JsonFlatten.FlattenLoop` | src/ch-cpp-utils/third-party/json/json.hpp:12141-12192 | the recursive loops of `flatten` build the specified object |
| `JsonFlatten.UnflattenLoop` | src/ch-cpp-utils/third-party/json/json.hpp:12199-12225 | the replay loop of `unflatten` agrees with the recursive replay in key order, errors included |
| `JsonFlattenLaw.FlattenLookup` | src/ch-cpp-utils/third-party/json/json.hpp:12141-12192 | `flatten` stores exactly the leaves, each under its pointer |
| `JsonFlattenLaw.EntriesAscend` | src/ch-cpp-utils/third-party/json/json.hpp:12199-12225 | the leaves in replay order have ascending pointer texts, "/10" before "/2" included |
| `JsonRebuild.ReplayOrder` | src/ch-cpp-utils/third-party/json/json.hpp:12199-12225 | the keys of a flattened value in map order are the texts of its leaves in replay order |
| `JsonRebuild.UnflattenFlatten` | src/ch-cpp-utils/third-party/json/json.hpp:12199-12225 | unflattening a flattened value replays its leaves, starting from null |
| `JsonRebuild.UnflattenIndexable` | src/ch-cpp-utils/third-party/json/json.hpp:11746-11800 | nothing `unflatten` returns holds an array of more than 2^31 elements |
| `JsonCreate.CreatedThere` | src/ch-cpp-utils/third-party/json/json.hpp:11746-11800 | the place that was created holds the value |
| `JsonCreate.CreatedElsewhere` | src/ch-cpp-utils/third-party/json/json.hpp:11746-11800 | creating a place changes nothing that a forking pointer leads to |
| `JsonCreate.GapsAreNull` | src/ch-cpp-utils/third-party/json/json.hpp:11746-11800 | an array grows just enough, and the places in between are null |
| `JsonRebuild.FlattenRoundTrip` | src/ch-cpp-utils/third-party/json/json.hpp:12408-12411 | unflatten(flatten(j)) is j exactly when j has no empty container, no object whose first replayed key is "0", and no array of more than 2^31 elements |
| `JsonRebuild.ZeroKeyFails` | src/ch-cpp-utils/third-party/json/json.hpp:11746-11800 | the documented note is broader than the code: {"0": true} does not come back |
| `Binary.ValueOfBigEndian` | src/ch-cpp-utils/third-party/json/json.hpp:6546-6640 | reading the bytes that were written gives the number back |
| `Binary.FetchExtends` | src/ch-cpp-utils/third-party/json/json.hpp:6626-6640 | appending bytes does not change a successful multi-byte read |
| `Binary.CanonicalEq` | src/ch-cpp-utils/third-party/json/json.hpp:5882-5955 | the form that round trips return is `==` to the value exactly when no NaN occurs in it |
| `Doubles.HalfValue` | src/ch-cpp-utils/third-party/json/json.hpp:7855-7885 | half precision is widened without changing the number; infinities and NaN stay what they are |
| `Doubles.SingleValue` | src/ch-cpp-utils/third-party/json/json.hpp:7887-7897 | single precision is widened without changing the number; infinities and NaN stay what they are |
| `Cbor.Append` | src/ch-cpp-utils/third-party/json/json.hpp:6898-7150 | the encoder appends exactly the specified encoding |
| `Cbor.Parse` | src/ch-cpp-utils/third-party/json/json.hpp:7448-7916 | the decoder with its moving index agrees with the specified read, errors included |
| `Cbor.Decode` | src/ch-cpp-utils/third-party/json/json.hpp:7448-7916 | a successful read moves the index strictly forward and at most to the end; it terminates on every input |
| `Cbor.DecodeEncode` | src/ch-cpp-utils/third-party/json/json.hpp:6898-7150 | wherever a vector holds the encoding of j, reading there gives j (non-negative integers unsigned) and stops at its end |
| `Cbor.RoundTrip` | src/ch-cpp-utils/third-party/json/json.hpp:8004-8043 | decoding an encoding followed by any bytes gives the value and the end of its encoding |
| `Cbor.DecodeExtends` | src/ch-cpp-utils/third-party/json/json.hpp:7448-7916 | appending bytes never changes a successful read |
| `Cbor.PrefixFree` | src/ch-cpp-utils/third-party/json/json.hpp:7448-7916 | no strict prefix of an encoding decodes |
| `CborWire.DecodeIsWire` | src/ch-cpp-utils/third-party/json/json.hpp:7448-7916 | for every vector, index and value: the decoder reads the value exactly where an item with that meaning is written, over all head widths, indefinite lengths, chunked texts and short floats |
| `CborWire.UnsupportedByte` | src/ch-cpp-utils/third-party/json/json.hpp:7448-7916 | an unsupported initial byte is refused as an invalid argument, and every other byte begins some legal item |
| `CborWire.DecodeWire` | src/ch-cpp-utils/third-party/json/json.hpp:7448-7916 | every item is read as its meaning, up to its end |
| `CborWire.ItemRead` | src/ch-cpp-utils/third-party/json/json.hpp:7448-7916 | whatever is read is an item |
| `CborWire.LastPairWins` | src/ch-cpp-utils/third-party/json/json.hpp:7804-7838 | in any map a repeated key has the value of its last pair |
| `CborShortest.EncodeIsWire` | src/ch-cpp-utils/third-party/json/json.hpp:6898-7150 | the encoder writes the item with definite lengths and the shortest heads |
| `CborShortest.OpenArray` | src/ch-cpp-utils/third-party/json/json.hpp:7727-7737 | an array's encoded elements between 0x9F and a break read as the array |
| `CborShortest.OpenObject` | src/ch-cpp-utils/third-party/json/json.hpp:7827-7838 | an object's encoded members between 0xBF and a break read as the object, up to and including the break |
| `CborShortest.OpenText` | src/ch-cpp-utils/third-party/json/json.hpp:7631-7642 | text items between 0x7F and a break read as their concatenation |
| `CborCut.ItemCut` | src/ch-cpp-utils/third-party/json/json.hpp:7448-7916 | a vector that ends inside an item is refused as out of range, wherever it was cut |
| `MsgPack.Append` | src/ch-cpp-utils/third-party/json/json.hpp:6652-6886 | the encoder appends exactly the specified encoding, also for lengths it cannot write |
| `MsgPack.Parse` | src/ch-cpp-utils/third-party/json/json.hpp:7210-7432 | the decoder with its moving index agrees with the specified read, errors included |
| `MsgPack.Decode` | src/ch-cpp-utils/third-party/json/json.hpp:7210-7432 | a successful read moves the index strictly forward and at most to the end; it terminates on every input |
| `MsgPack.DecodeEncode` | src/ch-cpp-utils/third-party/json/json.hpp:6652-6886 | wherever a vector holds the encoding of j, reading there gives j (non-negative integers unsigned) and stops at its end |
| `MsgPack.DecodedSized` | src/ch-cpp-utils/third-party/json/json.hpp:7210-7432 | whatever is decoded has no part of 2^32 or more bytes, elements or members |
| `MsgPack.RoundTrip` | src/ch-cpp-utils/third-party/json/json.hpp:6652-6886 | the round trip in context holds exactly when no length in the value reaches 2^32 |
| `MsgPack.DecodeExtends` | src/ch-cpp-utils/third-party/json/json.hpp:7210-7432 | appending bytes never changes a successful read |
| `MsgPack.PrefixFree` | src/ch-cpp-utils/third-party/json/json.hpp:7210-7432 | no strict prefix of an encoding decodes |
| `MsgPackWire.DecodeIsWire` | src/ch-cpp-utils/third-party/json/json.hpp:7210-7432 | for every vector, index and value: the decoder reads the value exactly where an item with that meaning is written, over all heads |
| `MsgPackWire.UnsupportedByte` | src/ch-cpp-utils/third-party/json/json.hpp:7210-7432 | an unsupported initial byte is refused as an invalid argument, and every other byte begins some legal item |
| `MsgPackWire.NumberRead` | src/ch-cpp-utils/third-party/json/json.hpp:7301-7347 | each head 0xCC to 0xCF reads the number and each head 0xD0 to 0xD3 the two's complement of its bytes |
| `MsgPackWire.TwosComplementIs` | src/ch-cpp-utils/third-party/json/json.hpp:7325-7347 | that is the one number of the signed range with these low bytes |
| `MsgPackWire.ItemRead` | src/ch-cpp-utils/third-party/json/json.hpp:7210-7432 | whatever is read is an item |
| `MsgPackShortest.EncodeIsWire` | src/ch-cpp-utils/third-party/json/json.hpp:6652-6886 | the encoder writes the item with the shortest heads |
| `MsgPackCut.ItemCut` | src/ch-cpp-utils/third-party/json/json.hpp:7210-7432 | a vector that ends inside an item is refused as out of range, wherever it was cut |
| `Utf8.AcceptsWellFormed` | src/ch-cpp-utils/third-party/json/json.hpp:10302-10413 | the scanner's UTF-8 states accept exactly the encodings of sequences of Unicode scalar values |
| `Utf8.CharIsEncoded` | src/ch-cpp-utils/third-party/json/json.hpp:9645-9707 | each byte sequence of the UTF-8 table is the encoding of one scalar value |
| `JsonString.EscapeLength` | src/ch-cpp-utils/third-party/json/json.hpp:8097-8128 | the buffer size is exactly the length of the escaped text |
| `JsonString.PutEscape` | src/ch-cpp-utils/third-party/json/json.hpp:8158-8243 | one escape is written over the backslash filling and nothing else changes |
| `JsonString.EscapeString` | src/ch-cpp-utils/third-party/json/json.hpp:8143-8248 | the pre-sized buffer is filled exactly and holds the concatenation of the escapes of the bytes |
| `JsonString.PairIsScalar` | src/ch-cpp-utils/third-party/json/json.hpp:9645-9707 | a surrogate pair gives the UTF-8 of the scalar value it stands for |
| `JsonString.ReadString` | src/ch-cpp-utils/third-party/json/json.hpp:10975-11088 | the loop of `get_string` agrees with the recursive reading, errors included |
| `JsonString.GetStringEscape` | src/ch-cpp-utils/third-party/json/json.hpp:8143-8248 | reading an escaped string gives it back, for every byte string |
| `StringMeaning.PrintedByte` | src/ch-cpp-utils/third-party/json/json.hpp:8158-8243 | the printer's escape of every byte: the letters of the table, lower-case digits for other controls, all else as it is |
| `StringMeaning.CodeOfHex` | src/ch-cpp-utils/third-party/json/json.hpp:11050-11052 | four digits, in either case, have the code cp exactly when they are the hexadecimal digits of cp |
| `StringMeaning.CodeEscape` | src/ch-cpp-utils/third-party/json/json.hpp:11046-11082 | the escape with the four hexadecimal digits of a scalar value reads as its UTF-8 |
| `StringMeaning.PairEscape` | src/ch-cpp-utils/third-party/json/json.hpp:11053-11068 | the escapes of the two surrogates computed from a code point above U+FFFF read as its UTF-8 |
| `StringMeaning.LetterEscape` | src/ch-cpp-utils/third-party/json/json.hpp:11003-11044 | each letter escape reads as the byte of the table |
| `StringMeaning.UnitsMean` | src/ch-cpp-utils/third-party/json/json.hpp:10975-11088 | a token with paired surrogates reads as the concatenated UTF-8 of the code points its units stand for |
| `StringMeaning.TokenMeans` | src/ch-cpp-utils/third-party/json/json.hpp:10975-11088 | every accepted token is read as its code points or rejected for an unpaired surrogate |
| `StringScan.ScanString` | src/ch-cpp-utils/third-party/json/json.hpp:10128-10413 | the cursor loop of the string automaton stops where the recursive run does |
| `StringScan.StringLanguage` | src/ch-cpp-utils/third-party/json/json.hpp:10128-10413 | the automaton accepts up to a quote exactly the texts made of legal escapes and of UTF-8 characters other than controls, quote and backslash |
| `StringScan.UnitsRead` | src/ch-cpp-utils/third-party/json/json.hpp:10975-11088 | reading such a text succeeds exactly when its surrogates are paired, and then gives well-formed UTF-8 |
| `StringScan.AcceptedString` | src/ch-cpp-utils/third-party/json/json.hpp:10975-11088 | on every accepted token `get_string` rejects an unpaired surrogate or returns well-formed UTF-8 |
| `StringScan.EscapeRun` | src/ch-cpp-utils/third-party/json/json.hpp:10128-10413 | an escaped string is accepted, up to its own closing quote, exactly when the string is well-formed UTF-8 |
| `JsonLexer.ScanNumber` | src/ch-cpp-utils/third-party/json/json.hpp:10414-10662 | the number states with their backtracking marker agree with the recursive run |
| `JsonLexer.ScanToken` | src/ch-cpp-utils/third-party/json/json.hpp:9773-10819 | the scanner returns the specified token: kind, start and end |
| `JsonLexer.IntegerTokens` | src/ch-cpp-utils/third-party/json/json.hpp:9991-10073 | an integer token is the decimal text of a number, without needless zeros, after a minus sign or not |
| `JsonLexer.ScanFits` | src/ch-cpp-utils/third-party/json/json.hpp:9773-10819 | every token lies inside the text, except the end of input, and string tokens have only complete escapes |
| `JsonText.NumToStr` | src/ch-cpp-utils/third-party/json/json.hpp:8272-8304 | the digit loop, sign and reversal write the decimal text of every 64-bit integer |
| `JsonText.DumpTo` | src/ch-cpp-utils/third-party/json/json.hpp:8415-8545 | printing appends exactly the specified text at every indentation |
| `JsonLayout.PrettyIsReformatted` | src/ch-cpp-utils/third-party/json/json.hpp:8415-8545 | for every float-free value and indentation step, the indented text is the compact text with line breaks and depth times step spaces put in at brackets and commas outside strings |
| `JsonText.Parser.ParseInternal` | src/ch-cpp-utils/third-party/json/json.hpp:11396-11589 | the recursive-descent parser and its current token agree with the specified parse, errors included |
| `JsonText.Parser.ParseText` | src/ch-cpp-utils/third-party/json/json.hpp:11379-11393 | a whole text is parsed as specified: one value, then the end of the input |
| `JsonGrammar.ParseIsSyntax` | src/ch-cpp-utils/third-party/json/json.hpp:11379-11589 | for every text and value: the parser gives the value exactly when the text is in the grammar with that value; all other texts are refused |
| `JsonGrammar.CharacterTables` | src/ch-cpp-utils/third-party/json/json.hpp:9786-9820 | the blanks, the exponent letters and the digits of the grammar are those of three tables written out |
| `JsonGrammar.DocumentParses` | src/ch-cpp-utils/third-party/json/json.hpp:11379-11589 | every text of the grammar parses to its value; a zero byte after it ends the input |
| `JsonGrammar.ParsesDocument` | src/ch-cpp-utils/third-party/json/json.hpp:11379-11589 | every text that parses is in the grammar |
| `JsonGrammar.LastMemberWins` | src/ch-cpp-utils/third-party/json/json.hpp:11432-11482 | a repeated key keeps its last value |
| `JsonGrammar.NumeralToken` | src/ch-cpp-utils/third-party/json/json.hpp:9991-10662 | a numeral, with its fraction and power, is one token of the right kind up to its end |
| `JsonGrammar.NumeralTaken` | src/ch-cpp-utils/third-party/json/json.hpp:9991-10662 | every number token is a numeral |
| `JsonTextLaw.ParseDump` | src/ch-cpp-utils/third-party/json/json.hpp:8415-8545 | wherever a text holds a printed value, parsing there gives the value and the token after it, or fails if a string is not UTF-8 |
| `JsonTextLaw.ParsePrinted` | src/ch-cpp-utils/third-party/json/json.hpp:2647-2663 | for every float-free value and indentation, parsing the printed text succeeds exactly when all strings and keys are UTF-8, and gives the value with non-negative integers unsigned |
| `JsonTextLaw.ParsePrintedEqual` | src/ch-cpp-utils/third-party/json/json.hpp:2647-2663 | the value that comes back is `==` to the one printed |
| `JsonTextLaw.ParsedUtf8` | src/ch-cpp-utils/third-party/json/json.hpp:11379-11589 | whatever text parses, every string and key of the result is well-formed UTF-8 |
| `JsonTextLaw.Reparse` | src/ch-cpp-utils/third-party/json/json.hpp:11379-11589 | what was parsed can be printed and parsed again with the same result, up to the signedness of integers |
| `ThreadPool.InitInv` | src/thread-pool.cpp:88-96 | the invariant holds before any thread exists |
| `ThreadPool.KeepsInv` | src/thread-pool.cpp:98-134 | every step of every thread keeps the invariant |
| `ThreadPool.Reachable` | src/thread-pool.cpp:72-134 | the invariant holds after every run |
| `ThreadPool.NoWorkerSleepsThroughWork` | src/thread-pool.cpp:98-134 | while a worker sleeps, the queue is no longer than the number of notified workers |
| `ThreadPool.TakenInOrder` | src/thread-pool.cpp:98-134 | jobs taken followed by the queue are the jobs pushed; every job taken is finished or in hand exactly once |
| `ThreadPool.ExitSignal` | src/thread.cpp:174-190 | the destructor's semaphore wait is satisfied exactly by the exit signal of that worker, never by its start signal |
| `ThreadPool.ShutdownDrains` | src/thread-pool.cpp:72-86 | when the destructor has returned, every worker took one exit job, every job pushed before an exit job was taken in order, and every job taken was finished |
| `ThreadPool.NoDeadlock` | src/thread.cpp:60-114 | during construction and destruction some productive step is always enabled |
| `ThreadPool.StepLeft` | src/semaphore.cpp:48-59 | every productive step reduces the work left; client jobs and spurious wake-ups add a bounded amount |
| `ThreadPool.RunsAreBounded` | src/thread-pool.cpp:72-134 | the productive steps of a run are bounded by its work, so once clients stop adding jobs the destructor returns |
| `DirTree.DirTree.Grow` | src/dirtree.cpp:159-178 | the insertion loop walks to the node of the key, creating exactly the missing prefixes |
| `DirTree.DirTree.Insert` | src/dirtree.cpp:159-185 | the heap trie stays well formed; the key and its prefixes exist, the key has the data, all else is unchanged |
| `DirTree.DirTree.Search` | src/dirtree.cpp:187-240 | the data of the exact path, or of the sibling "*" when the last token alone is missing and the callback accepts, else nothing |
| `DirTree.DirTree.DropChildren` | src/dirtree.cpp:112-119 | empties a node's subtree and reports each node of it once, descendants first, under stem and suffix |
| `DirTree.DirTree.DropTree` | src/dirtree.cpp:299-314 | removes the child's subtree and unhooks it from its parent |
| `DirTree.DirTree.Walk` | src/dirtree.cpp:316-345 | finds the node of a key and its parent exactly when the path exists |
| `DirTree.DirTree.Drop` | src/dirtree.cpp:316-351 | removes exactly the extensions of the path, reports each of them once, descendants before ancestors; an absent path changes and reports nothing |
| `DirTreeKeys.TokensAre` | src/dirtree.cpp:138-152 | for every key: its tokens are exactly the non-empty slash-free list whose slash-join, up to a final slash or an empty token, is the normalized key |
| `DirTreeKeys.KeyTokens` | src/dirtree.cpp:138-152 | a key written with a leading slash, a leading "./", or neither has the tokens "." and the joined ones |
| `DirTreeKeys.KeysDiffer` | src/dirtree.cpp:138-152 | such keys have equal tokens exactly when their token lists are equal |
| `DirTreeReport.ReportIsTrue` | src/dirtree.cpp:279-297 | the path a drop reports is the node's true path exactly when the normalized key is the slash-join of at least two tokens |
| `DirTreeRuns.RunMeaning` | src/dirtree.cpp:159-351 | after any run of insertions and drops, a path exists exactly when an insertion at or below it has not been dropped since, and has the data last inserted there |
| `DirTreeRuns.RunsArePrefixClosed` | src/dirtree.cpp:159-351 | after any run the paths are prefix-closed and the root has no data |
| `DirTreeRuns.Play` | src/dirtree.cpp:159-351 | the heap tree has these contents after every run |
| `Router.TreeMeaning` | src/http/server/http-router.cpp:112-125 | the tree of a method holds exactly the registered routes and their prefixes, each route with its latest registration |
| `Router.ScanIsSearch` | src/http/server/http-router.cpp:136-146 | searching the tree equals a linear scan: the latest route with the same tokens, else nothing for a proper prefix of a route, else the latest "*" beside the last token |
| `Router.Router.GetDirTree` | src/http/server/http-router.cpp:97-110 | returns the tree of the method, created empty on first use, sharing nothing with the others |
| `Router.Router.AddRoute` | src/http/server/http-router.cpp:112-125 | appends one registration and keeps every tree in step with the registrations |
| `Router.Router.GetRoute` | src/http/server/http-router.cpp:136-146 | the lookup equals the linear scan of everything registered so far |
| `DirTreeKeys.RegisteredFound` | src/http/server/http-router.cpp:112-146 | a route just registered under a slash-joined path is found there |
| `DirTreeKeys.OthersFound` | src/http/server/http-router.cpp:112-146 | registering a route under one path takes nothing away from routes registered under other paths |
| `Base64.PackIsDigits` | src/base64.cpp:56-59 | the masks and shifts of the encoder give the four base-64 digits of the 24-bit group |
| `Base64.UnpackIsOctets` | src/base64.cpp:102-104 | the masks and shifts of the decoder give the three bytes of the 24-bit group |
| `Base64.EncodeLoop` | src/base64.cpp:46-86 | the loops over the scratch buffers give the specified encoding |
| `Base64.DecodeLoop` | src/base64.cpp:88-123 | the loops give the specified decoding, whatever the scratch buffers held before |
| `Base64.EncodeLength` | src/base64.cpp:46-86 | n bytes become 4*ceil(n/3) symbols |
| `Base64.DecodeEncode` | src/base64.cpp:46-123 | decoding undoes encoding, for every byte sequence |
| `Base64.EncodeDecode` | src/base64.cpp:46-123 | encoding undoes decoding exactly on properly padded text |
| `Base64Bits.SymbolTable` | src/base64.cpp:36-39 | the symbol of every digit is the one at its place in the 64-byte alphabet |
| `Base64Bits.PositionTable` | src/base64.cpp:36-44 | a byte is a symbol exactly when it is in the alphabet, and its digit is its place there |
| `Base64Bits.DecodeBits` | src/base64.cpp:88-123 | decoding any text gives the bits of its leading symbols one after the other, as many whole bytes as there are |

## Left out

- Cbor.RoundTrip: is stated for values whose lengths are below 2^64, which every `size_t` is.
- JsonTextLaw.ParsePrinted: is stated for values without floats; `snprintf`, `strtod` and the locale are foreign calls and enter the printer and the parser as parameters (`Floats`).
- JsonLayout.PrettyIsReformatted: is stated for values without floats, whose text is a foreign call.
- JsonGrammar.ParseIsSyntax: what a numeral with a fraction, a power of ten, or more than 64 bits stands for is the parameter `Floats.read`; texts are byte sequences in memory, not streams.
- JsonTextLaw.ParsedUtf8: takes it that the conversion of a number token yields a double or null; the case in which `strtod` stops before the end of the token, which leaves a discarded value, is not modelled.
- ThreadPool.ShutdownDrains: clients add ordinary jobs only, no exit jobs of their own; the life of a thread object after its last notification, event bases and the init callbacks are not modelled.
- DirTree.DirTree.Drop: nodes become unreachable instead of being deleted, and the callbacks are modelled as the sequence of their arguments; the order among siblings is any order, as in an unordered map.
- Router.Router.AddRoute: routes are values with a handler number; the destructor and the ownership of routes are not modelled.
- JsonPatch.PatchLoop: references into the document are functional updates at a path. Where C++ leaves the order of evaluation open (`copy`, `test`), the model takes one order. A negative index given to unchecked access, which is undefined or exhausts memory in the source, is an error in the model.
- JsonFlatten.UnflattenLoop: a negative array index is an error in the model, as above.
- Base64.EncodeLoop: bit masks and shifts are written as division and remainder; lengths are unbounded instead of `int`.
- The discarded value, parser callbacks, iterators, `operator<`, and reading from streams (`fill_line_buffer` only as the zero bytes it appends) of json.hpp.
- The overflow check inside `check_length`: sizes are unbounded integers, so the sums it guards cannot wrap.
- Where the note on `unflatten` (json.hpp, lines 12408-12411) promises more than the code does, the model follows the code.
- `DirTree::hasChildren`, which relies on the path being present, and `DirTree::print`.
- The HTTP server's request queue, which repeats the protocol of the thread pool; the HTTP client and its connection pool.
- The file-system watcher, timers, TCP classes, process statistics, configuration and the other utilities, which are operating-system calls.
- The logger, the linked hash map and the events, which would only add easy members.
