# OlaSearch: verified models of its protocol code

This project models seven parts of the OlaSearch server in Dafny and proves what they are for.

* **MD5** (`Md5Spec`, `Md5Stream`, `Md5Known`): the streaming digest with its carry-over buffer and its
  64-bit length in two words, against RFC 1321, its padding bit by bit, and its first known answer.
* **The MD5 two-block search** (`Md5Path`, `Md5Forms`, `Md5Account`, `Md5Search`): a randomised search that
  fills two message arrays by running MD5 steps forwards and backwards, re-solving parts of them over and
  over. It is shown that whatever `random()` returns, what a normal return leaves in the arrays are two
  messages with one digest, and that every random word is used for one try that either goes on or fails a
  named test; `Md5Pair` states it of the streaming digest.
* **The UTF-8/16/32 codec** (`Utf8Chars`, `Utf8Text`, `Utf8Core`, `Utf8Checked`, `Utf8Errors`,
  `Utf16Text`, `Utf8Transcode`, `Utf8Unchecked`): the exact decoder, encoders, transcoders, repair, backward
  stepping, and the unchecked twin that agrees with it, against RFC 3629 and RFC 2781.
* **The HTTP request parser** (`RequestSpec`, `RequestGrammar`, `RequestChars`, `RequestPrint`,
  `RequestFolding`, `RequestParser`): a machine of twenty states, proved to accept exactly a grammar over
  characters that are listed, and to be the same re-run on a growing buffer as resumed.
* **The connection's reads** (`RequestReads`, `ConnectionSpec`, `ConnectionActs`, `ConnectionReader`): what a
  read leads to, what it keeps of its buffer for the next, and which requests survive that.
* **The message log** (`MessageLog`, `SessionLog`): a log of bounded length with a cursor per session,
  and what every run of its operations delivers.
* **The percent codec** (`PercentCodec`, `PercentChars`): the encoder, its decoder, and the request
  handler's decoder.

`Basics` holds what several of them share.

## How it is built

Code that changes state is a class or a method with loops, and its contract ties it to a function on
values; the theorems are about those functions. An iterator is a position in a text, an output
iterator is a sequence that grows, and an exception is a value returned beside the others. An octet is
a `bv8`; a 32-bit word is a `bv32`, but the two words of the MD5 length are natural numbers reduced
modulo 2^32, and a C int is an integer that is wrapped around where the code can overflow it.

`random()` is a finite tape of arbitrary 32-bit words. A method reports that it found nothing only
when the tape is used up, so each statement holds for every behaviour of the generator (and for words
that the library's generator, which is never negative, cannot return), whenever the search ends. The
arrays, the order in which they are overwritten and the tests are those of the code; the text of the
64 steps, repeated there up to four times, is driven by tables of the same constants.

In the MD5 code both byte-order paths are modelled by the one that assembles words octet by octet.
The constants `T1` to `T64` are their values, not the complements the code writes some of them as.

## What is not as one might expect

Each of these is a statement about the code as it is, with an input and the exact condition.

* A version number wraps around as a C int does (`NumberIsWrapped`). A printed request is accepted again
  exactly if neither number has become negative (`AcceptedReparses`, `OverflowExample`).
* The parser joins a folded header line to the one before without anything between, where section 2.2 of
  RFC 2616 makes the fold a space. The two agree on the words of a value exactly if every fold with text
  behind it comes where the value is empty or ends with a space (`AcceptedUnfolds`, `FoldExample`).
* A session misses messages exactly if one of its reads comes when the log no longer reaches back to the
  first message that is new to it, and the length of the log is known from the number of writes since it
  was last cleared (`NoneMissedIffInTime`, `RetainedRun`). One read per 1002 writes is always enough
  (`NoneMissed`), and one per 1003 is not (`OneWriteTooMany`).
* Messages are numbered from 0 and cursors start at 0. The first message ever written is delivered to no
  one (`NoneTwice`, `FirstMessageWithheld`). It is the only one that a session which reads in time misses
  between two clearings (`NoneMissedIffInTime`).
* The connection does not keep the bytes of an indeterminate read. A request whose head takes several
  reads is found exactly if all but the last brought nothing (`OneReadOrNone`, `CutRequestLost`,
  `CutExample`).
* While the body of a good post is awaited, the buffer is kept as long as it holds fewer than 8192
  characters, and the request stays the same; once it is full it is dropped, and the next read is parsed
  alone (`NextRead`, `FullBufferExample`).
* As long as the buffer is not full, a post is answered exactly when a read ends where its body ends. If no
  read does, because more came at once or because the body does not fit into the buffer, the connection
  reads on (`GoesUntilBodyEnds`, `OvertakenExample`).
* The two percent decoders differ exactly on texts in which a percent sign is not followed by two hex
  digits (`DecodersAgree`, `DecodersDiffer`).
* The exception that `next` throws for an invalid code point carries 0, never the code point, because
  `validate_next` hands the code point out only on success (`BlamesAnother`, `BlameExample`).

`dafny verify dfyconfig.toml` checks the whole project.

## Model

| member | source | states |
|---|---|---|
| `Md5Pair.FindAndDigest` | OlaSearch/web/md5coll.c:29-31 | for every prefix of whole blocks that leads MD5 to the starting value of the search and every suffix, in whatever chunks: if the search returns, streaming prefix, `X0`, suffix and prefix, `X1`, suffix gives one digest; the two messages differ, in six words; and the search returns if and only if the account of its random words ends with a second block found |
| `Md5Search.Search.FindPair` | OlaSearch/web/md5coll.c:33-1563 | Whatever `random()` returns: if both blocks return, two compressions from the starting value over `X0` and over `X1` give the same chaining value, and the two messages differ by exactly the bits stated. Every random word is accounted for by one try, made where the program stands after the tries before it, on the outputs they left, and every try that fails does so at a named test; the search returns if and only if the account ends with a second block found, and it gives up only when no random word is left |
| `Md5Search.PairDiffers` | OlaSearch/web/md5coll.c:33-1563 | the bit differences of a found pair mean that the messages differ in words 4, 11, 14, 20, 27 and 30 and in no other, there in the top bit or, in words 11 and 27, in bit 15 |
| `Md5Search.PairCollides` | OlaSearch/web/md5coll.c:29 | a pair that collides from its starting value has equal MD5 digests behind every prefix of whole blocks that leads MD5 to that value, and before every suffix |
| `Md5Account.MissesAreNamed` | OlaSearch/web/md5coll.c:33-1563 | in an account of a run of either block, every try that did not succeed failed a test that was made: the words that were solved for do not differ as they must, or a step that was run does not pass |
| `Md5Account.BookDraw` | OlaSearch/web/md5coll.c:33-1563 | one more try continues an account by exactly the next random word, and leads where the program goes on |
| `Md5Account.OneBitIs` | OlaSearch/web/md5coll.c:326 | the flipped mask has one bit, and it is the one named |
| `Md5Account.MaskIsOneBit` | OlaSearch/web/md5coll.c:770-779 | the table of masks holds the bits 0 to 28, and bit 30 |
| `Md5Forms.FormsAgree` | OlaSearch/web/md5coll.c:41-1053 | for every picked output: what the code writes out, or-ing, clearing and copying its own constants, is what the table of masks says, for both messages |
| `Md5Forms.TestByBits` | OlaSearch/web/md5coll.c:193-716 | the masked tests on the first message's outputs are these conditions on single bits, step by step |
| `Md5Forms.EndTestByBits` | OlaSearch/web/md5coll.c:731-759 | the last tests of block 1 are these conditions on single bits of the chaining value |
| `Md5Forms.DifferenceByPowers` | OlaSearch/web/md5coll.c:200-763 | the differences demanded between the two messages are the top bit, or a difference of two powers of two |
| `Md5Search.Search.Block1` | OlaSearch/web/md5coll.c:33-768 | on return all 64 step equations hold for both messages, every stated condition on the outputs holds, and `A0..D0`, `A1..D1` are the compressions of the two first blocks; it returns if and only if the account of all random words taken ends in a round of LOOP_12 that passed |
| `Md5Search.Search.Block2` | OlaSearch/web/md5coll.c:781-1563 | on return all 64 step equations hold for both second blocks, and both compress to the same chaining value; the first blocks and their chaining values are untouched; it returns if and only if the account of all random words taken ends in a round of LOOP_22 that passed |
| `Md5Search.Search.PickFirst` | OlaSearch/web/md5coll.c:37-172 | one pass of the first loop leaves steps 7 to 16 solved for both messages and words 6 to 15 with the stated differences; it is given up exactly at the first word that differs otherwise |
| `Md5Search.Search.PickOne` | OlaSearch/web/md5coll.c:53-67 | one step of the first loop keeps the steps before it, solves this one for the random word taken, and succeeds if and only if the words differ as required |
| `Md5Search.Search.Try17` | OlaSearch/web/md5coll.c:176-211 | the front part of a round of LOOP_11 keeps what the first loop established; it succeeds with steps up to 19 solved, or fails because the words 1 differ or because step 18 or 19, reached with all before it in order, fails its test |
| `Md5Search.Search.Try11` | OlaSearch/web/md5coll.c:174-317 | a round of LOOP_11, which re-solves only some words, keeps what the first loop established whether it succeeds or not; its tries are accounted for, and 300 failed rounds lead back to the start |
| `Md5Search.Search.Try20` | OlaSearch/web/md5coll.c:213-314 | the rest of a round: output 20 is picked from the next random word, and the round succeeds with all steps up to 27 in order or fails at a named word or step |
| `Md5Search.Search.Try12` | OlaSearch/web/md5coll.c:323-764 | a round of LOOP_12 flips the bit that the random word names, and succeeds with all 64 steps in order or fails at a named word or step |
| `Md5Search.Search.Loop12` | OlaSearch/web/md5coll.c:321-764 | varying one bit of `Q[20]` and re-solving words 0 and 2 to 5 leaves, at the break, all 64 steps solved for both messages; only 2^29 failed rounds lead back to the start |
| `Md5Search.Search.Fill` | OlaSearch/web/md5coll.c:224-252 | outputs 1 and 2 and words 2 to 5 are completed so that steps 1 to 20 are all solved, without disturbing the later steps; it fails only if words 4 or 5, solved for, differ otherwise than they must |
| `Md5Search.Search.Vary` | OlaSearch/web/md5coll.c:217-314 | re-solving word 0 and running on keeps the steps solved before; it succeeds with all steps up to the last one run solved and tested, or fails at a named word or at the first step whose test fails |
| `Md5Search.Search.PickSecond` | OlaSearch/web/md5coll.c:785-1045 | the picks of block 2, with up to ten tries each, leave its first 15 steps solved; ten failed tries for one output lead back to the first |
| `Md5Search.Search.TrySecond` | OlaSearch/web/md5coll.c:800-835 | a try for one of the outputs 1 to 15 keeps the steps before it and succeeds if and only if the words solved for differ as required |
| `Md5Search.Search.TryLast` | OlaSearch/web/md5coll.c:1049-1132 | a round of LOOP_21 or LOOP_22 picks output 16 afresh or flips one bit of it, and succeeds with all steps up to 21 or 64 in order or fails at word 15 or at a named step |
| `Md5Search.Search.LoopLast` | OlaSearch/web/md5coll.c:1047-1561 | LOOP_21 and LOOP_22 keep the first 15 steps, and at their break leave all steps up to 21 and 64 solved; only 1000 and 2^26 failed rounds lead back to the start |
| `Md5Search.Search.Solve` | OlaSearch/web/md5coll.c:62-67 | the backward formula gives the one word with which both chains output what they hold; nothing else changes, and the result says whether the words differ as required |
| `Md5Search.Search.Run` | OlaSearch/web/md5coll.c:190-201 | a forward step keeps all arrays but one output of each message; it succeeds if and only if both of its tests hold, and is then solved and on the path; when it fails, the first message is run and one of the tests fails, and the second message is not run if the first test fails |
| `Md5Search.Search.RunAll` | OlaSearch/web/md5coll.c:254-314 | any range of forward steps with their tests keeps the steps solved before; it succeeds with all of them solved and tested, or stops at the first step that fails a test, with those before it in order |
| `Md5Search.Search.Pick` | OlaSearch/web/md5coll.c:40-60 | a picked output has the forced bits set, cleared and copied, whatever the random value was |
| `Md5Search.Search.RunCopy` | OlaSearch/web/md5coll.c:224-230 | outputs 1 and 2 are computed once and copied; both messages' steps are then solved because they still agree |
| `Md5Search.Search.SolveCopy` | OlaSearch/web/md5coll.c:232-238 | words 2 and 3 are solved once and copied; both messages' steps are then solved because they still agree |
| `Md5Search.Search.TryPick` | OlaSearch/web/md5coll.c:788-835 | one try at a step of block 2 keeps the steps before it, solves this one for the random word taken, and succeeds if and only if the words differ as required |
| `Md5Search.Search.Flip` | OlaSearch/web/md5coll.c:325-327 | one bit of the output is flipped, the one that the random word names, and every condition on the output is kept |
| `Md5Search.FlipKeepsShape` | OlaSearch/web/md5coll.c:326 | a flip that avoids the forced bits keeps the shape of an output |
| `Md5Search.EqualSums` | OlaSearch/web/md5coll.c:1525-1557 | the tests of the last four steps make the four sums with the chaining values equal |
| `Md5Search.SumsAreCompress` | OlaSearch/web/md5coll.c:717-764 | the registers summed up in steps 61 to 64 are the compression of the block |
| `Md5Search.DigestSplits` | OlaSearch/web/md5.cpp:362-383 | the digest of whole blocks and a suffix depends on the blocks only through their chaining value and their number |
| `Md5Search.FoldPair` | OlaSearch/web/md5coll.c:31 | the little-endian octets of 32 words behind a prefix are compressed as two blocks of those words |
| `Md5Path.StepInverse` | OlaSearch/web/md5coll.c:62-65 | every MD5 step is a bijection between message word and output, and the search's `RR` formula is its inverse |
| `Md5Path.ForwardIsStep` | OlaSearch/web/md5coll.c:191-192 | the search's `RL` formula computes the step of section 3.4 of RFC 1321 |
| `Md5Path.MixForms` | OlaSearch/web/md5coll.c:18-21 | the search's forms of F and G compute the auxiliary functions of RFC 1321 |
| `Md5Path.RowsAgree` | OlaSearch/web/md5coll.c:62-314 | the word index, rotation amount and constant that the search writes out for each of the 64 steps are those of section 3.4 of RFC 1321 |
| `Md5Path.TestFormIsTest` | OlaSearch/web/md5coll.c:590-707 | the exclusive-or form of the tests on top bits in block 1 is the masked form of block 2 |
| `Md5Path.RotationMacros` | OlaSearch/web/md5coll.c:23-24 | the shift macros are rotations, for every amount that is used |
| `Md5Path.SolvedIsCompress` | OlaSearch/web/md5coll.c:26-31 | 64 solved step equations and the chaining value say what the compression of the block is |
| `Md5Path.SolvedIsRounds` | OlaSearch/web/md5coll.c:26-31 | n solved step equations are n steps of MD5 |
| `Md5Path.ShapedHasShape` | OlaSearch/web/md5coll.c:45-46 | the masking of a random value sets, clears and copies exactly the bits it is meant to |
| `Md5Path.KeepSolved` | OlaSearch/web/md5coll.c:176-317 | changing one output keeps every solved step that does not involve it |
| `Md5Path.KeepSolvedWord` | OlaSearch/web/md5coll.c:176-317 | changing one word keeps every solved step that does not read it |
| `Md5Path.KeepOnPath` | OlaSearch/web/md5coll.c:176-317 | changing one output keeps the conditions on the outputs that do not refer to it |
| `Md5Stream.Md5State.Process` | OlaSearch/web/md5.cpp:132-311 | the 64 unrolled steps over the assembled words are the table-driven compression of section 3.4 of RFC 1321 |
| `Md5Stream.Md5State.Round1` | OlaSearch/web/md5.cpp:205-224 | the sixteen unrolled steps of round 1 are sixteen table-driven ones |
| `Md5Stream.Md5State.Round2` | OlaSearch/web/md5.cpp:227-250 | the same for round 2 |
| `Md5Stream.Md5State.Round3` | OlaSearch/web/md5.cpp:253-276 | the same for round 3 |
| `Md5Stream.Md5State.Round4` | OlaSearch/web/md5.cpp:279-302 | the same for round 4 |
| `Md5Stream.Md5State.LoadWords` | OlaSearch/web/md5.cpp:179-196 | the words of a block are its octets, four to a word, the lowest first |
| `Md5Stream.Md5State.constructor` | OlaSearch/web/md5.cpp:314-322 | the initial state is the hash of nothing |
| `Md5Stream.Md5State.Append` | OlaSearch/web/md5.cpp:324-360 | after any append the registers are the fold of the compression over the full blocks of all input so far, the buffer holds the tail, and the two count words hold 8 times its length modulo 2^64 |
| `Md5Stream.Md5State.AddLength` | OlaSearch/web/md5.cpp:330-340 | the two-word addition with its carry adds 8 times the number of octets, modulo 2^64 |
| `Md5Stream.Md5State.FillBuffer` | OlaSearch/web/md5.cpp:343-352 | a partial block is filled up; it is compressed exactly when it is full |
| `Md5Stream.Md5State.AppendBlocks` | OlaSearch/web/md5.cpp:355-359 | every full block is compressed once and in order, and the rest is buffered |
| `Md5Stream.CountAddHolds` | OlaSearch/web/md5.cpp:337-340 | carry and `nbytes >> 29` together keep the 64-bit count |
| `Md5Stream.CountOffset` | OlaSearch/web/md5.cpp:329 | the buffer offset can be read off the low count word alone |
| `Md5Stream.Md5State.SaveLength` | OlaSearch/web/md5.cpp:372-374 | the eight octets saved are the 64-bit length before the padding, the lowest first |
| `Md5Stream.Md5State.WriteDigest` | OlaSearch/web/md5.cpp:379-380 | the sixteen octets are the four registers, the lowest octet first |
| `Md5Stream.Md5State.AppendPadding` | OlaSearch/web/md5.cpp:375-378 | the padding and the old length make the message a whole number of blocks; what that is bit by bit is `PaddedBits` and `PaddedEnd` |
| `Md5Stream.Md5State.Finish` | OlaSearch/web/md5.cpp:362-383 | the result is the MD5 digest of everything appended, and the buffer ends empty |
| `Md5Stream.DigestOfChunks` | OlaSearch/web/md5.cpp:324-383 | every way of cutting a message into chunks gives the digest of the whole message |
| `Md5Known.DigestOfNothing` | OlaSearch/web/md5.cpp:324-383 | the digest of the empty message is d41d8cd98f00b204e9800998ecf8427e, as in section A.5 of RFC 1321 |
| `Md5Known.PaddedBits` | OlaSearch/web/md5.cpp:365-376 | bit by bit, the most significant bit of an octet first: the padded message is the message, one 1 bit and 0 bits, up to the last 64 bits (section 3.1 of RFC 1321) |
| `Md5Known.PaddedEnd` | OlaSearch/web/md5.cpp:372-378 | those bits end at 448 modulo 512, at most 512 of them are added, and the eight octets behind them are the length in bits modulo 2^64, the lowest octet first (sections 3.1 and 3.2) |
| `Md5Spec.PadCountLeast` | OlaSearch/web/md5.cpp:375-376 | the pad count is the least positive one that reaches 56 modulo 64 |
| `Md5Spec.FoldAppend` | OlaSearch/web/md5.cpp:354-356 | compressing s and then t is compressing s + t |
| `Md5Spec.WordsRoundTrip` | OlaSearch/web/md5.cpp:190-196 | octets to words undoes words to octets |
| `Md5Spec.RoundsCompose` | OlaSearch/web/md5.cpp:200-302 | steps lo to mid and then mid to hi are steps lo to hi |
| `Utf8Chars.AcceptsIsChar` | OlaSearch/mmseg/utf8cpp/utf8/core.h:98-132 | lead length, trail octets, range and overlong tests together accept exactly one character in the syntax of section 4 of RFC 3629 |
| `Utf8Chars.EncodeSpells` | OlaSearch/mmseg/utf8cpp/utf8/checked.h:72-96 | what is written for a valid code point is one well-formed character that spells it |
| `Utf8Chars.SpellEncodes` | OlaSearch/mmseg/utf8cpp/utf8/core.h:151-218 | each well-formed character is the encoding of the code point it spells |
| `Utf8Text.ClassifyIsSyntax` | OlaSearch/mmseg/utf8cpp/utf8/core.h:222-272 | decoding succeeds exactly if some prefix is a well-formed character; it then gives that character's code point and length |
| `Utf8Text.ClassifyEncoded` | OlaSearch/mmseg/utf8cpp/utf8/core.h:222-272 | whatever follows, decoding an encoded code point gives it back |
| `Utf8Text.DecodeEncodes` | OlaSearch/mmseg/utf8cpp/utf8/checked.h:248-264 | decoding the encoding of any valid code points gives them back |
| `Utf8Text.EncodeDecodes` | OlaSearch/mmseg/utf8cpp/utf8/checked.h:248-264 | encoding the code points of any valid text gives the text back |
| `Utf8Text.UniqueSplit` | OlaSearch/mmseg/utf8cpp/utf8/core.h:287-303 | a text is the encoding of at most one sequence of code points |
| `Utf8Text.ScanAppend` | OlaSearch/mmseg/utf8cpp/utf8/core.h:287-297 | behind a valid text, scanning goes on as if it started there |
| `Utf8Text.ValidAppend` | OlaSearch/mmseg/utf8cpp/utf8/core.h:299-303 | with a valid first part, the whole is valid if and only if the rest is |
| `Utf8Text.LongestPrefix` | OlaSearch/mmseg/utf8cpp/utf8/core.h:287-297 | what is scanned before the first error is the longest valid prefix |
| `Utf8Core.IncreaseSafely` | OlaSearch/mmseg/utf8cpp/utf8/core.h:136-147 | moves one octet; the error says whether the octet is missing or no trail octet |
| `Utf8Core.GetSequence1` | OlaSearch/mmseg/utf8cpp/utf8/core.h:152-161 | reads the single octet, or reports that there is none |
| `Utf8Core.GetSequence2` | OlaSearch/mmseg/utf8cpp/utf8/core.h:163-176 | decodes two octets; on an error the iterator stands at the first octet that is missing or no trail octet, and the code point holds what was added up by then |
| `Utf8Core.GetSequence3` | OlaSearch/mmseg/utf8cpp/utf8/core.h:178-195 | the same for three octets |
| `Utf8Core.GetSequence4` | OlaSearch/mmseg/utf8cpp/utf8/core.h:197-218 | the same for four octets |
| `Utf8Core.ValidateNext` | OlaSearch/mmseg/utf8cpp/utf8/core.h:222-272 | on success the iterator moves behind one well-formed character and its code point is set; on every error both stay as they were |
| `Utf8Core.FindInvalid` | OlaSearch/mmseg/utf8cpp/utf8/core.h:287-297 | stops at the end of the longest valid prefix |
| `Utf8Core.IsValid` | OlaSearch/mmseg/utf8cpp/utf8/core.h:299-303 | true if and only if the whole range is well-formed |
| `Utf8Checked.ThrowsIffInvalid` | OlaSearch/mmseg/utf8cpp/utf8/checked.h:136-154 | a loop of `next` throws if and only if the text is not valid |
| `Utf8Checked.Append` | OlaSearch/mmseg/utf8cpp/utf8/checked.h:72-96 | writes the encoding of a valid code point, and throws with nothing written for any other |
| `Utf8Checked.Next` | OlaSearch/mmseg/utf8cpp/utf8/checked.h:136-154 | returns the next character's code point and moves behind it; otherwise throws what the error calls for and does not move |
| `Utf8Checked.BlamesAnother` | OlaSearch/mmseg/utf8cpp/utf8/checked.h:136-154 | the code point in the exception for an invalid one is 0, which is never the one the text spells |
| `Utf8Checked.BlameExample` | OlaSearch/mmseg/utf8cpp/utf8/checked.h:136-154 | the octets ed a0 80 spell the surrogate 0xd800 and are refused as an invalid code point |
| `Utf8Errors.VerdictByOctets` | OlaSearch/mmseg/utf8cpp/utf8/core.h:222-272 | octet by octet, for every text: which of the six verdicts the decoder gives; a surrogate spelled with an octet too many is an invalid code point, not an overlong sequence |
| `Utf8Errors.ThrownByOctets` | OlaSearch/mmseg/utf8cpp/utf8/checked.h:136-154 | for every text, which exception ends a loop of `next`, read off the octets behind the longest valid prefix: not_enough_room if and only if the text ends inside a sequence there |
| `Utf8Checked.Prior` | OlaSearch/mmseg/utf8cpp/utf8/checked.h:162-175 | on any octets: never moves before `start`; lands on the nearest octet that is no trail octet and decodes from there, or throws |
| `Utf8Checked.PriorUndoesNext` | OlaSearch/mmseg/utf8cpp/utf8/checked.h:136-175 | `prior` after `next` is back at the same place with the same code point |
| `Utf8Checked.PriorOnValid` | OlaSearch/mmseg/utf8cpp/utf8/checked.h:162-175 | from the end of a valid text `prior` finds its last character, and what is before it is valid |
| `Utf8Checked.Distance` | OlaSearch/mmseg/utf8cpp/utf8/checked.h:196-204 | counts the code points, and throws if and only if the text is invalid |
| `Utf8Checked.Advance` | OlaSearch/mmseg/utf8cpp/utf8/checked.h:189-194 | moves over n code points, or throws what the text's first error calls for and stops at it |
| `Utf8Checked.SpanIsEncoded` | OlaSearch/mmseg/utf8cpp/utf8/checked.h:189-194 | the octets moved over are the encoding of the first n code points |
| `Utf8Checked.AdvanceByDistance` | OlaSearch/mmseg/utf8cpp/utf8/checked.h:189-204 | advancing by the distance of a valid range lands on its end |
| `Utf8Checked.ReplaceInvalid` | OlaSearch/mmseg/utf8cpp/utf8/checked.h:98-127 | the loop writes the repaired text and ends as the repair does; it terminates |
| `Utf8Checked.RepairKeepsValid` | OlaSearch/mmseg/utf8cpp/utf8/checked.h:98-127 | a valid text is copied unchanged |
| `Utf8Checked.RepairedIsValid` | OlaSearch/mmseg/utf8cpp/utf8/checked.h:98-127 | whatever is written is valid, even when the work is cut short |
| `Utf8Checked.RepairTwice` | OlaSearch/mmseg/utf8cpp/utf8/checked.h:98-127 | repairing a second time changes nothing and does not throw |
| `Utf8Checked.RepairThrowsIffTruncated` | OlaSearch/mmseg/utf8cpp/utf8/checked.h:98-127 | with a valid mark it throws if and only if the text ends inside a sequence |
| `Utf8Checked.RepairWithBadMark` | OlaSearch/mmseg/utf8cpp/utf8/checked.h:98-127 | with an invalid mark only valid texts get through, and what was written is the longest valid prefix |
| `Utf8Errors.OneMark` | OlaSearch/mmseg/utf8cpp/utf8/checked.h:111-123 | an octet that leads nothing is replaced by a mark of its own; for any other error one mark stands for the first octet and all trail octets behind it, and the repair goes on at the next |
| `Utf8Errors.MarkExample` | OlaSearch/mmseg/utf8cpp/utf8/checked.h:111-123 | the octets c0 80 are replaced by one mark, ef bf bd, and the octets 80 80 by two |
| `Utf8Checked.SkipMarked` | OlaSearch/mmseg/utf8cpp/utf8/checked.h:111-123 | steps over one octet, and unless that could not lead at all over all trail octets behind it: it stops at the end or at an octet that is no trail octet |
| `Utf16Text.SplitIsRfc` | OlaSearch/mmseg/utf8cpp/utf8/core.h:48-53 | the two offsets with their wrap-around split a code point as section 2.1 of RFC 2781 does |
| `Utf16Text.JoinIsRfc` | OlaSearch/mmseg/utf8cpp/utf8/core.h:52-53 | the wrap-around sum joins a pair as section 2.2 of RFC 2781 does |
| `Utf16Text.JoinSplits` | OlaSearch/mmseg/utf8cpp/utf8/checked.h:233-246 | splitting undoes joining, for every surrogate pair |
| `Utf16Text.SplitJoins` | OlaSearch/mmseg/utf8cpp/utf8/checked.h:206-231 | joining undoes splitting, for every code point beyond 0xffff |
| `Utf16Text.ScansIffPaired` | OlaSearch/mmseg/utf8cpp/utf8/checked.h:206-231 | reading UTF-16 succeeds if and only if each lead surrogate is followed by a trail and each trail preceded by a lead |
| `Utf16Text.BlamesWord` | OlaSearch/mmseg/utf8cpp/utf8/checked.h:206-231 | on ill-formed text the code points read are those of the text before the first ill-formed place, and the word in the exception is the one behind a lead surrogate, or else the lone surrogate |
| `Utf16Text.Scan16AllValid` | OlaSearch/mmseg/utf8cpp/utf8/checked.h:228 | every code point handed to the inner `append` is valid, so that never throws |
| `Utf16Text.Encode16Decodes` | OlaSearch/mmseg/utf8cpp/utf8/checked.h:206-246 | encoding the code points of well-formed UTF-16 gives it back |
| `Utf16Text.Decode16Encodes` | OlaSearch/mmseg/utf8cpp/utf8/checked.h:206-246 | decoding encoded code points gives them back |
| `Utf16Text.ToUtf8AndBack` | OlaSearch/mmseg/utf8cpp/utf8/checked.h:206-246 | every well-formed UTF-16 text survives the way to UTF-8 and back |
| `Utf16Text.ToUtf16AndBack` | OlaSearch/mmseg/utf8cpp/utf8/checked.h:206-246 | every valid UTF-8 text survives the way to UTF-16 and back |
| `Utf8Transcode.Utf16to8` | OlaSearch/mmseg/utf8cpp/utf8/checked.h:206-231 | writes the encoding of all code points before the first ill-formed place, and throws there and only there |
| `Utf8Transcode.Utf8to16` | OlaSearch/mmseg/utf8cpp/utf8/checked.h:233-246 | writes the UTF-16 form of all code points before the first error, and throws there and only there |
| `Utf8Transcode.Utf32to8` | OlaSearch/mmseg/utf8cpp/utf8/checked.h:248-255 | writes the encoding of all code points before the first invalid one, and throws on that one |
| `Utf8Transcode.Utf8to32` | OlaSearch/mmseg/utf8cpp/utf8/checked.h:257-264 | writes all code points before the first error, and throws there and only there |
| `Utf8Transcode.Iterator.Make` | OlaSearch/mmseg/utf8cpp/utf8/checked.h:274-281 | constructing throws if and only if the position is outside the range |
| `Utf8Transcode.Iterator.Deref` | OlaSearch/mmseg/utf8cpp/utf8/checked.h:284-288 | reads the code point without moving |
| `Utf8Transcode.Iterator.Increment` | OlaSearch/mmseg/utf8cpp/utf8/checked.h:299-303 | moves behind one character, or throws and stays |
| `Utf8Transcode.Iterator.Decrement` | OlaSearch/mmseg/utf8cpp/utf8/checked.h:310-314 | moves back to the nearest octet that can start a character, never before the range |
| `Utf8Transcode.Iterator.ForthAndBack` | OlaSearch/mmseg/utf8cpp/utf8/checked.h:299-314 | decrementing after incrementing restores the position |
| `Utf8Unchecked.AppendUnchecked` | OlaSearch/mmseg/utf8cpp/utf8/unchecked.h:37-58 | writes what the checked one writes for every valid code point |
| `Utf8Unchecked.NextUnchecked` | OlaSearch/mmseg/utf8cpp/utf8/unchecked.h:60-89 | reads what the lead octet announces |
| `Utf8Unchecked.StrideByOctets` | OlaSearch/mmseg/utf8cpp/utf8/unchecked.h:60-89 | a stray trail octet, or one that starts no sequence, is taken for a character of one octet |
| `Utf8Unchecked.StrideOfGood` | OlaSearch/mmseg/utf8cpp/utf8/unchecked.h:60-89 | on a well-formed character that is what the checked `next` reads: same code point, same final position |
| `Utf8Unchecked.PriorUnchecked` | OlaSearch/mmseg/utf8cpp/utf8/unchecked.h:97-103 | lands on the nearest octet that is no trail octet |
| `Utf8Unchecked.PriorAgrees` | OlaSearch/mmseg/utf8cpp/utf8/unchecked.h:97-103 | behind a well-formed character it gives what the checked `prior` gives |
| `Utf8Unchecked.DistanceUnchecked` | OlaSearch/mmseg/utf8cpp/utf8/unchecked.h:119-127 | on valid text the same count as the checked one |
| `Utf8Unchecked.AdvanceUnchecked` | OlaSearch/mmseg/utf8cpp/utf8/unchecked.h:112-117 | on valid text the same final position as the checked one |
| `Utf8Unchecked.Utf16to8Unchecked` | OlaSearch/mmseg/utf8cpp/utf8/unchecked.h:129-142 | on well-formed UTF-16 the same output as the checked one |
| `Utf8Unchecked.Utf8to16Unchecked` | OlaSearch/mmseg/utf8cpp/utf8/unchecked.h:144-157 | on valid UTF-8 the same output as the checked one |
| `Utf8Unchecked.Utf32to8Unchecked` | OlaSearch/mmseg/utf8cpp/utf8/unchecked.h:159-166 | on valid code points the same output as the checked one |
| `Utf8Unchecked.Utf8to32Unchecked` | OlaSearch/mmseg/utf8cpp/utf8/unchecked.h:168-175 | on valid UTF-8 the same output as the checked one |
| `Utf8Unchecked.UncheckedIterator.Deref` | OlaSearch/mmseg/utf8cpp/utf8/unchecked.h:186-190 | reads the code point that the lead octet announces, without moving |
| `Utf8Unchecked.UncheckedIterator.Increment` | OlaSearch/mmseg/utf8cpp/utf8/unchecked.h:199-203 | on a well-formed character moves as the checked iterator does; on an octet that announces nothing it stays where it is |
| `Utf8Unchecked.UncheckedIterator.Decrement` | OlaSearch/mmseg/utf8cpp/utf8/unchecked.h:210-214 | moves back to the nearest octet that is no trail octet |
| `RequestGrammar.AcceptsExactlyLayouts` | OlaSearch/web/request_parser.cpp:27-283 | an input is good if and only if a request in the accepted layout (request line, header lines, folded continuation lines, blank line) begins it; the parse then ends where the layout ends and the request is what the layout means |
| `RequestChars.AcceptsExactlySpelled` | OlaSearch/web/request_parser.cpp:27-312 | an input is good if and only if it begins with a request in that layout whose method and header names are letters, digits and the marks listed, whose URI and header values hold no control characters, and whose version numbers are decimal digits |
| `RequestChars.RefusedByCharacter` | OlaSearch/web/request_parser.cpp:27-312 | for each state that takes a class of characters, exactly the characters that are bad there |
| `RequestChars.AwaitedByCharacter` | OlaSearch/web/request_parser.cpp:77-283 | each other state takes one character only |
| `RequestChars.PrintableUriAccepted` | OlaSearch/web/request_parser.cpp:27-312 | a request line whose URI is any characters from "!" to "~", and a blank line, are good at the last character, and the request is the one written |
| `RequestChars.PercentExample` | OlaSearch/web/request_parser.cpp:63-71 | "GET /a%20b HTTP/1.1" and two line ends are good at the last character |
| `RequestGrammar.LayoutParses` | OlaSearch/web/request_parser.cpp:27-283 | every legal layout is parsed to its meaning, whatever follows it |
| `RequestGrammar.LayoutOfRun` | OlaSearch/web/request_parser.cpp:27-283 | the characters taken by any good run are a legal layout |
| `RequestGrammar.GrowStep` | OlaSearch/web/request_parser.cpp:27-283 | in each of the twenty states, the text taken so far is a front part of a layout, and one more character extends it |
| `RequestGrammar.BadIsHopeless` | OlaSearch/web/request_parser.cpp:27-283 | an input is bad if and only if nothing that might still arrive could make it good |
| `RequestGrammar.NumberIsWrapped` | OlaSearch/web/request_parser.cpp:124-174 | a version number is the decimal value of its digits, wrapped around once to a C int |
| `RequestGrammar.NumberIsValueIffFits` | OlaSearch/web/request_parser.cpp:124-174 | the parser reads the number that is written if and only if that fits in an int |
| `RequestFolding.AcceptedUnfolds` | OlaSearch/web/request_parser.cpp:193-227 | for every accepted input: the headers are those of section 2.2 of RFC 2616, where a fold is one space, if and only if no line is folded; and they have the same words if and only if every fold with text behind it comes where the value is empty or ends with a space |
| `RequestFolding.SameValueIffUnfolded` | OlaSearch/web/request_parser.cpp:193-227 | a header value is the unfolded one if and only if there is no fold |
| `RequestFolding.SameWordsIffSeparated` | OlaSearch/web/request_parser.cpp:193-227 | a header value has the words of the unfolded one if and only if no fold glues two words together |
| `RequestFolding.FoldExample` | OlaSearch/web/request_parser.cpp:193-227 | the value "b", folded, "c" is parsed to "bc" where section 2.2 of RFC 2616 makes it "b c" |
| `RequestGrammar.LeadsFold` | OlaSearch/web/request_parser.cpp:193-227 | a continuation line adds its text without the leading blanks, and without a separator, to the last header's value |
| `RequestPrint.PrintThenParse` | OlaSearch/web/request_parser.cpp:27-283 | printing a legal request and parsing it gives the request back, good at the last character |
| `RequestPrint.AcceptedIsLegal` | OlaSearch/web/request_parser.cpp:27-283 | whatever is accepted is a legal request, whose version numbers fit in an int |
| `RequestPrint.AcceptedReparses` | OlaSearch/web/request_parser.cpp:27-283 | for every accepted input, printing the request and parsing that reproduces it if and only if the low 32 bits of both version numbers written in the input are no negative int |
| `RequestPrint.ReparsesIffNonNegative` | OlaSearch/web/request_parser.cpp:124-174 | a legal request survives printing and parsing if and only if neither version number is negative |
| `RequestPrint.AnyVersionAccepted` | OlaSearch/web/request_parser.cpp:124-174 | every version number is accepted, however long, and read as a C int |
| `RequestPrint.OverflowExample` | OlaSearch/web/request_parser.cpp:135-149 | 2147483648 is read as a negative number and 4294967297 as 1 |
| `RequestPrint.NegativeVersionRefused` | OlaSearch/web/request_parser.cpp:124-174 | a negative version number, left by an overflow, is printed with a sign that the parser refuses |
| `RequestSpec.ReparseIsResume` | OlaSearch/web/request_parser.hpp:35-47 | a verdict and its end never change when characters are appended; before a verdict, parsing the longer buffer is continuing behind the shorter one |
| `RequestSpec.RunAppend` | OlaSearch/web/request_parser.cpp:27-283 | running over a and then b is running over a + b, from every state |
| `RequestSpec.StaleVersionForgotten` | OlaSearch/web/connection.cpp:581-588 | version numbers left in the request by an earlier try make no difference to a parse |
| `RequestSpec.GoodEndsAtFirstBlankLine` | OlaSearch/web/connection.cpp:849-858 | a good request ends just behind the first CR LF CR LF of the buffer, with no NUL before that, so that a search for it finds the end of the header |
| `RequestSpec.StepLines` | OlaSearch/web/request_parser.cpp:161-279 | which states take and expect line ends, and that NUL is never let through |
| `RequestSpec.Step` | OlaSearch/web/request_parser.cpp:186-279 | states that extend the last header are only reached when there is one |
| `ConnectionSpec.NextRead` | OlaSearch/web/connection.cpp:567-869 | for a post whose body is awaited, after any number of reads: while fewer than 8192 characters are buffered, the next read finds the same request and end, and answers if and only if the buffer then ends where the body ends; once 8192 are buffered, the next read is parsed alone; and the request is found again if and only if the buffer was not full or what arrives begins with the same request |
| `ConnectionActs.ReadActs` | OlaSearch/web/connection.cpp:590-1246 | for every state and every chunk, from the parse of the buffer alone: the connection refuses exactly the bad requests, fails exactly if the first Content-Length of a good one cannot be read, hands over exactly the posts to the two upload URIs whose boundary is known, answers every other good request that is no post, and a post exactly if the buffer ends where its body ends |
| `ConnectionActs.ReadRemembers` | OlaSearch/web/connection.cpp:567-1246 | the expected length is the first one given or the one from before; the buffer is kept from its start only while a body is awaited and there is room, it is dropped when a post is answered or it is full, and otherwise what was kept stays |
| `ConnectionActs.AnswerExample` | OlaSearch/web/connection.cpp:590-1233 | a new connection answers "GET / HTTP/1.1" with two line ends, and keeps nothing of it |
| `ConnectionActs.ReadsExactly` | OlaSearch/web/connection.cpp:596 | a text is read as a length if and only if it is decimal digits, with or without a sign, for a number below 2^64; a minus sign counts down from 2^64 |
| `ConnectionActs.ReadsDecimal` | OlaSearch/web/connection.cpp:596 | the decimal text of every number below 2^64 is read as that number, and that of any other is not read |
| `ConnectionSpec.KeepsWaiting` | OlaSearch/web/connection.cpp:849-863 | while neither the end of the body is reached nor the buffer full, each read is followed by another and everything is kept; a full buffer is dropped |
| `ConnectionSpec.GoesUntilBodyEnds` | OlaSearch/web/connection.cpp:849-867 | as long as the buffer is not full, the connection reads on until some read ends exactly where the body ends, and on and on if none does |
| `ConnectionSpec.ReadFinds` | OlaSearch/web/connection.cpp:849-867 | a read whose buffer begins with the request finds it, and decides by the number of characters alone |
| `ConnectionSpec.FullBufferExample` | OlaSearch/web/connection.cpp:568-569 | a post whose head takes all 8192 characters: the connection reads on, and refuses a blank that comes next |
| `ConnectionSpec.OvertakenExample` | OlaSearch/web/connection.cpp:849-867 | a post of one character is answered when that character comes, and not when two come at once |
| `ConnectionSpec.OneReadOrNone` | OlaSearch/web/connection.cpp:567-590 | for any number of reads: a good request whose last missing character comes with the last of them is found by that read if and only if the reads before it brought nothing |
| `ConnectionSpec.KeptIsTail` | OlaSearch/web/connection.cpp:567-590 | on every run of reads, what is kept is the end of what was read, and is empty or begins with a good request |
| `ConnectionReader.Connection.DoRead` | OlaSearch/web/connection.cpp:567-869 | one read of the machine: the chunk goes behind what is kept, the buffer is parsed from a cleared request, and offset and expected length become what the code makes of the verdict |
| `ConnectionReader.Connection.Settle` | OlaSearch/web/connection.cpp:591-867 | what is done with a good request is decided by its first Content-Length header, its method, its URI and the number of characters buffered |
| `ConnectionReader.Connection.FindLength` | OlaSearch/web/connection.cpp:594-599 | the loop finds the first Content-Length header, and leaves the expected length when there is none |
| `ConnectionReader.FindBlankLine` | OlaSearch/web/connection.cpp:851 | the search finds the first blank line |
| `ConnectionReader.ComparesAsUnsigned` | OlaSearch/web/connection.cpp:854 | the comparison on unsigned numbers holds if and only if the buffer ends where the body ends |
| `RequestReads.CutRequestLost` | OlaSearch/web/connection.cpp:567-590 | for every good request and every cut before its end: parsing what comes behind the cut, as the connection does, finds the same request if and only if nothing comes before the cut |
| `RequestReads.CutExample` | OlaSearch/web/connection.cpp:567-590 | "G" and " / HTTP/1.1" with two line ends are a good request in one piece, and a bad one when read in two |
| `RequestReads.SameEnd` | OlaSearch/web/connection.cpp:849-858 | if a buffer and what comes behind a cut in it are both good, both end at the same place |
| `RequestReads.CutInLine` | OlaSearch/web/request_parser.cpp:186-279 | if both have the same number of headers, the cut is in the request line |
| `RequestParser.Parser.Consume` | OlaSearch/web/request_parser.cpp:27-283 | the object does one step of the machine on its state and on the request; `headers.back()` is only used when there are headers |
| `RequestParser.Parser.Parse` | OlaSearch/web/request_parser.hpp:35-47 | the loop from the reset state does one run of the machine and returns its verdict and end |
| `RequestParser.Parser.ParseAgain` | OlaSearch/web/connection.cpp:581-588 | clearing and parsing a grown buffer is going on where the shorter buffer ended |
| `RequestParser.Parser.Reset` | OlaSearch/web/request_parser.cpp:22-25 | back to the first state, with the request untouched |
| `RequestParser.RequestRecord.Clear` | OlaSearch/web/connection.cpp:581-586 | empties method, URI and headers, and leaves the version numbers |
| `RequestParser.RequestRecord.PushHeader` | OlaSearch/web/request_parser.cpp:203-204 | appends one header whose name is the one character |
| `RequestParser.RequestRecord.PushBackName` | OlaSearch/web/request_parser.cpp:240 | only the last header's name changes |
| `RequestParser.RequestRecord.PushBackValue` | OlaSearch/web/request_parser.cpp:225 | only the last header's value changes |
| `MessageLog.SoundRun` | OlaSearch/web/SeessionID.cpp:26-112 | over every run of the operations: the ids retained are consecutive and end at the last one given, each message is the one written under its id, and the size never exceeds 2001 |
| `MessageLog.DeliveryIsRange` | OlaSearch/web/SeessionID.cpp:26-58 | a read returns, in order, exactly the messages written from behind the cursor, or from the oldest one retained if that is later, to the newest |
| `MessageLog.NoneTwice` | OlaSearch/web/SeessionID.cpp:26-112 | over every run, clearing included, the ids a session receives only increase and each comes with the text written under it: no message arrives twice, and id 0 never arrives |
| `MessageLog.NoneMissedIffInTime` | OlaSearch/web/SeessionID.cpp:26-112 | on every run: a session has received every message up to its last read, once and in order, if and only if each of its reads since the last clearing came in time, which is decided by counting writes |
| `MessageLog.ReadCompleteIffInTime` | OlaSearch/web/SeessionID.cpp:26-58 | on every run, the next read returns the new messages that are retained, and all of them if and only if it comes in time |
| `MessageLog.RetainedRun` | OlaSearch/web/SeessionID.cpp:100-112 | on every run the length of the log is a closed form of the number of writes since the last clearing |
| `MessageLog.CursorRun` | OlaSearch/web/SeessionID.cpp:26-58 | on every run a cursor stands behind the last message written before the last read |
| `MessageLog.Counted` | OlaSearch/web/SeessionID.cpp:26-58 | the number received is the number due, or smaller if a read came too late |
| `MessageLog.AttentiveIsInTime` | OlaSearch/web/SeessionID.cpp:100-112 | at most 1002 writes before each read means that every read comes in time |
| `MessageLog.NoneMissed` | OlaSearch/web/SeessionID.cpp:26-112 | a session that reads at least once per 1002 writes has after each read received every message since the last clearing, but for id 0, once and in order |
| `MessageLog.FirstMessageWithheld` | OlaSearch/web/SeessionID.cpp:26-58 | the first message written is retained, and a session that reads next does not get it |
| `MessageLog.OneWriteTooMany` | OlaSearch/web/SeessionID.cpp:100-112 | with 1003 writes between two reads a message can be lost: a concrete run in which id 999 never arrives |
| `MessageLog.ReadsAllNew` | OlaSearch/web/SeessionID.cpp:26-58 | a read returns the new messages still retained; that is all of them if and only if there are none or the log reaches back to the first |
| `MessageLog.ReadsFromStep` | OlaSearch/web/SeessionID.cpp:26-112 | no operation moves the place from which a session reads backwards |
| `MessageLog.SoundWrite` | OlaSearch/web/SeessionID.cpp:100-112 | trimming and appending keep the log sound |
| `MessageLog.CommasJoined` | OlaSearch/web/SeessionID.cpp:33-53 | dropping the last character of the texts with commas behind them leaves them joined by commas |
| `MessageLog.ReplyText` | OlaSearch/web/SeessionID.cpp:33-53 | for every list of messages the reply is a bracket, the texts with a comma between them, and a bracket |
| `MessageLog.TouchesOnly` | OlaSearch/web/SeessionID.cpp:26-118 | for every operation and every session, field by field, what changes and what does not, and which sessions are made |
| `MessageLog.TouchesMessages` | OlaSearch/web/SeessionID.cpp:26-118 | only writing and clearing change the messages, and only writing the running number |
| `MessageLog.AddWordsGains` | OlaSearch/web/SeessionID.cpp:75-99 | the word list keeps its words in place, gains each new non-empty word once, and stays free of duplicates |
| `MessageLog.AddWordsInOrder` | OlaSearch/web/SeessionID.cpp:75-99 | later words come behind earlier ones |
| `MessageLog.AddWordsTwice` | OlaSearch/web/SeessionID.cpp:75-99 | adding the same words again changes nothing |
| `SessionLog.SessionId.WriteFunction` | OlaSearch/web/SeessionID.cpp:100-112 | one write of the state machine |
| `SessionLog.SessionId.ReadFunction` | OlaSearch/web/SeessionID.cpp:26-58 | one read of the state machine; the reply is the new messages joined by commas, in brackets |
| `SessionLog.SessionId.ClearAll` | OlaSearch/web/SeessionID.cpp:54-58 | drops messages and sessions, and keeps the running number |
| `SessionLog.SessionId.ClearSession` | OlaSearch/web/SeessionID.cpp:59-62 | drops the word list of one session and nothing else |
| `SessionLog.SessionId.AddAll` | OlaSearch/web/SeessionID.cpp:75-99 | the nested loops add the words of a split text; a session is made only if there is a word to add |
| `SessionLog.SessionId.AddText` | OlaSearch/web/SeessionID.cpp:75-99 | a text is split at its spaces and its words are added |
| `SessionLog.SplitIsExact` | OlaSearch/web/SeessionID.cpp:78-81 | the pieces hold no space, and with spaces between them they are the text |
| `SessionLog.SessionId.SetKill` | OlaSearch/web/SeessionID.cpp:67-70 | sets the flag of one session and nothing else |
| `SessionLog.SessionId.WriteHost` | OlaSearch/web/SeessionID.cpp:113-118 | appends a host name without looking for duplicates |
| `SessionLog.SessionId.At` | OlaSearch/web/SeessionID.cpp:22-25 | looking up an unknown session inserts a fresh one with cursor 0 |
| `PercentCodec.DecodeEncode` | OlaSearch/utf8.cpp:514-552 | decoding what was encoded gives it back, for every byte string |
| `PercentCodec.EncodeDecode` | OlaSearch/utf8.cpp:514-552 | encoding what was decoded gives the text back if and only if the text is canonical: unreserved characters, plus signs, and lower-case pairs for all other bytes |
| `PercentCodec.PairOfDigits` | OlaSearch/utf8.cpp:503-512 | the two hex digits of a byte, taken from a signed char, are read back as that byte |
| `PercentChars.EncodedByCharacter` | OlaSearch/utf8.cpp:516-531 | letters, digits and - _ . ~ are encoded as they are, a space as a plus sign, and any other byte as a percent sign and its two lower-case hex digits, the high one first |
| `PercentChars.DecodedByCharacter` | OlaSearch/utf8.cpp:535-552 | a plus sign is a space, a percent sign with two characters behind it is one byte, without them it is dropped, and all else is itself |
| `PercentChars.ReadByCharacter` | OlaSearch/utf8.cpp:504-506 | the value of each hex digit, in either case |
| `PercentChars.StreamByCharacter` | OlaSearch/web/request_handler.cpp:193-197 | what the stream reads from any two characters: digits, a digit behind a blank or a sign, a digit in front of anything else, or nothing |
| `PercentCodec.UrlEncode` | OlaSearch/utf8.cpp:516-531 | the buffer of 3 n + 1 bytes suffices, and holds the encoded string and its terminator |
| `PercentCodec.UrlDecode` | OlaSearch/utf8.cpp:535-552 | the buffer of n + 1 bytes suffices, and holds the decoded bytes and a terminator |
| `PercentCodec.EncodeThenDecode` | OlaSearch/utf8.cpp:514-552 | the two calls in a row give back every zero-terminated string |
| `PercentCodec.EncodedHasNoNul` | OlaSearch/utf8.cpp:516-531 | an encoded string holds no NUL |
| `PercentCodec.HandlerUrlDecode` | OlaSearch/web/request_handler.cpp:187-211 | the loop of the request handler's decoder |
| `PercentCodec.DecodersAgree` | OlaSearch/web/request_handler.cpp:187-211 | the request handler's decoder succeeds with the result of the other one if and only if each percent sign has two hex digits behind it |
| `PercentCodec.NeverTheSame` | OlaSearch/web/request_handler.cpp:193-197 | where one of the two characters is no hex digit, what the stream reads from them is never what the other decoder makes of them |
| `PercentCodec.DecodersDiffer` | OlaSearch/web/request_handler.cpp:202-204 | a percent sign at the end is dropped by one decoder and refused by the other |
| `PercentCodec.HandlerDecodeEncode` | OlaSearch/web/request_handler.cpp:187-211 | the request handler's decoder gives back every encoded byte string |

## Left out

- The search's termination and running time: they depend on probabilities. Its command line and its
  output of the found messages are left out as well.
- Md5Stream.Md5State.Append: requires that the buffer offset plus `nbytes` fits in an int, as the code
  adds the two in an int; the alignment test and the cast of the data pointer are not modelled.
- Utf8Transcode.Iterator.Increment: copies made by the postfix operators, and the comparison that
  throws for iterators over different ranges, are left out, as are `base`, `peek_next`, the deprecated
  `previous` and the byte order mark tests.
- Utf8Unchecked.NextUnchecked: requires that the octets which the lead announces are there; outside of
  that the code reads beyond its input.
- ConnectionReader.Connection.DoRead: sockets and what the connection does with a request that it answers
  are left out, and so are uploads, which other methods receive; whether an upload has named its boundary
  is a parameter. Reading a length from a header value is the library's conversion to an unsigned number
  of 64 bits, modelled for the C locale.
- SessionLog.SessionId.WriteFunction: requires that the running number is below the greatest int, as
  the code adds to it in an int and what comes beyond is undefined. Each locked method is one atomic step, `ReadFunction` with its lock for reading included.
- SessionLog.SessionId.AddText: the regular expression is a single space, so splitting is modelled as
  splitting at spaces; whether an empty piece is reported at the ends makes no difference, as empty
  pieces are skipped. The plain getters are represented by their common lookup, `At`.
- PercentCodec.UrlDecode: letters, digits and blanks are those of the C locale, here and in the stream
  from which the request handler reads its hex numbers.
- Allocation and failure of `malloc`, iconv and GBK conversion, dates, JSON, the segmenter,
  file transfer, the database, the XML configuration, logging and multicast are I/O or foreign
  libraries.
- The MIME table, status strings, the pool of services and the set of connections would only add
  simple lookups.
