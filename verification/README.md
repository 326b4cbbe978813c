# A chat server's protocols, verified

The repository is a small chat server; its hard behaviour is in the libraries it vendors and in
its own notification fan-out. This project models that behaviour in Dafny and proves what it is
for:

* **Key derivation.** `Salsa`, `Octets`, `ScryptSpec`, `Scrypt` and `Pbkdf2` prove the in-place,
  unrolled scrypt and PBKDF2 equal to the recursive definitions of RFC 7914 and RFC 2898;
  `SalsaVectors` and `KeySteps` say what those definitions are, step by step and by example.
* **hstore text.** `HstoreText`, `HstoreParser` and `HstoreRoundTrip` prove that the seven-state
  parser accepts exactly a grammar and undoes the printer; `HstoreLaws` has the characters.
* **WebSocket.** `Framing`, `Stream`, `Delivery`, `Conn` and `Exchange` prove framing, masking and the
  reassembly of frames end to end, as in sections 5.2 to 5.5 of RFC 6455; `FrameOctets` and
  `Opcodes` have the octets and the numbers.
* **PostgreSQL driver.** `Messages`, `Reader`, `Arrays`, `ArrayReader`, `Bind`,
  `Timestamp` and `Scalars` are the wire formats, and `WireLaws` their octets; `ConnPool`,
  `RowsModel` and `Rows` are the pool and the lives of result sets and transactions, and
  `PoolLaws` and `RowsLaws` say when each outcome occurs.
* **Fan-out and logging.** `Signal`, `Listeners` and `Speculative`; `SignalLaws` and
  `ListenersLaws` tie the steps of the first two to their methods.

`Wrappers`, `Sequences`, `Bits`, `Bytes`, `Windows` and `Slices` hold what the others share:
options, joined sequences, the bitwise operators, octet strings, changes confined to a window of an
array, and unordered slices.

## How it is written

Code that works in place is modelled in place: classes with the source's fields, arrays, loops.
Each such method is proved equal to a function of the old state, and the properties are then
lemmas about those functions, over all inputs, runs and interleavings. A concurrent protocol is
a system whose steps are its critical sections; a run is any enabled sequence of them. What a
function computes is stated again apart from its body: by position and by number for a wire
format, from the intermediate values for an algorithm, by outcome for a critical section. Machine
words and octets are bounded natural numbers and their operators (`&`, `|`, `^`, shifts, wrap
around 2^32 and 2^64) are written out.

Reads from sockets and randomness are parameters or arbitrary values: how many octets have
arrived at each read, the masking keys, which calls fail, what a statement leaves of its
connection, the order in which a map is visited.

## What the proofs found

Where the obvious claim is false, a lemma gives the exact condition.

* The hstore parser refuses text that the encoder wrote exactly when a key is empty
  (`HstoreRoundTrip.RoundTrip`).
* An empty ping ends a WebSocket stream: the data after it is lost (`Delivery.AllDelivered`) and it is
  not answered (`Delivery.AllAnswered`); `Delivery.EmptyPingExample` is such a stream.
* After a failed read the message reader returns type 0 without an error
  (`Reader.StuckAfterError`), and the first column of a row is misread when the row before was
  left in the middle of a value (`Reader.StaleValue`).
* Integers below the range of int2 and int4 are sent wrapped (`Bind.IntArgExact`).
* A connection can be handed out after the pool's closing loop exactly when something is available
  and a waiter has been woken, or can still be (`ConnPool.AfterClosing`).
  `ConnPool.WaiterAfterClose` is a run that does it, `ConnPool.StrandedWaiter` one in which the
  waiter sleeps on.
* A connection whose begin fails is never released (`Rows.Begin`, conn_pool.go:216-229), although
  the comment above promises an automatic release, and no Close passes its wait after it
  (`ConnPool.LeakBlocksClose`, `Rows.FailedBeginExample`).
* Closing rows can release a connection that is alive but has not been drained, when an error
  arrives on the way or the message reader is stuck (`RowsModel.ClosedClean`,
  `RowsModel.UndrainedExample`).
* The comment at scrypt.go:215 names only r*p < 2^30 as the limit on the parameters;
  `Scrypt.AcceptsExactly` gives the whole condition.

## Model

| member | source | states |
|---|---|---|
| Salsa.SalsaXor | backend/Godeps/_workspace/src/code.google.com/p/go.crypto/scrypt/scrypt.go:33-160 | tmp becomes Salsa20/8 of (tmp xor the chosen sixteen words of in), out receives the same words, and nothing else of out changes; Salsa20/8 is defined apart, by quarter-rounds, as in section 3 of RFC 7914 |
| Salsa.ColumnStep | backend/Godeps/_workspace/src/code.google.com/p/go.crypto/scrypt/scrypt.go:55-89 | the sixteen interleaved assignments of a column step are four quarter-rounds on the columns |
| Salsa.RowStep | backend/Godeps/_workspace/src/code.google.com/p/go.crypto/scrypt/scrypt.go:91-125 | the same for the row step |
| SalsaVectors.RotlValue | backend/Godeps/_workspace/src/code.google.com/p/go.crypto/scrypt/scrypt.go:55-125 | a rotation by k is 2^k times the low 32-k bits plus the high k bits |
| SalsaVectors.RowRoundExample | backend/Godeps/_workspace/src/code.google.com/p/go.crypto/scrypt/scrypt.go:91-125 | the first rowround example of the Salsa20 specification, which fixes the four rotations and the order of mixing |
| SalsaVectors.ColumnIsTransposedRow | backend/Godeps/_workspace/src/code.google.com/p/go.crypto/scrypt/scrypt.go:55-89 | a column round is a row round of the transposed matrix |
| SalsaVectors.EightRounds | backend/Godeps/_workspace/src/code.google.com/p/go.crypto/scrypt/scrypt.go:54-160 | Salsa20/8 is four double rounds, the column round first in each, added word by word to its input modulo 2^32 |
| Scrypt.BlockXor | backend/Godeps/_workspace/src/code.google.com/p/go.crypto/scrypt/scrypt.go:25-29 | n words of dst are xored with those of src and nothing else of dst changes |
| Scrypt.BlockMix | backend/Godeps/_workspace/src/code.google.com/p/go.crypto/scrypt/scrypt.go:162-168 | in octets, the output window is scryptBlockMix of the input window: the even blocks of the chain first, then the odd ones; only that window changes |
| KeySteps.BlockMixIs | backend/Godeps/_workspace/src/code.google.com/p/go.crypto/scrypt/scrypt.go:162-168 | given X after each of the 2r steps of section 4 of RFC 7914, block i of the first half is X after step 2i+1 and block i of the second half X after step 2i+2 |
| KeySteps.SalsaOctetsIs | backend/Godeps/_workspace/src/code.google.com/p/go.crypto/scrypt/scrypt.go:181-184 | on octets, Salsa20/8 is that of the words they spell, least significant octet first |
| ScryptSpec.ChainStep | backend/Godeps/_workspace/src/code.google.com/p/go.crypto/scrypt/scrypt.go:164-167 | one salsaXOR on words is one step of the block chain of RFC 7914 on octets, so little-endian packing commutes with mixing |
| ScryptSpec.IntegerifyMask | backend/Godeps/_workspace/src/code.google.com/p/go.crypto/scrypt/scrypt.go:170-173 | integer, which looks at two words only, masked by N-1, equals Integerify of the whole last block (all 64 octets, little-endian) modulo N, for every power of two N up to 2^64 |
| Scrypt.Fill | backend/Godeps/_workspace/src/code.google.com/p/go.crypto/scrypt/scrypt.go:185-191 | the loop unrolled by two leaves row i of v equal to the i-th iterate of scryptBlockMix, for every i below N, and x holding the N-th |
| Scrypt.Mix | backend/Godeps/_workspace/src/code.google.com/p/go.crypto/scrypt/scrypt.go:192-200 | the second unrolled loop leaves x equal to the result of the N data-dependent steps of section 5 |
| Scrypt.Smix | backend/Godeps/_workspace/src/code.google.com/p/go.crypto/scrypt/scrypt.go:175-209 | for r > 0 and every power of two N > 1, the window of b becomes scryptROMix of what it was, as section 5 defines it recursively, and the rest of b is unchanged; every slice index is in bounds |
| KeySteps.ROMixIs | backend/Godeps/_workspace/src/code.google.com/p/go.crypto/scrypt/scrypt.go:175-209 | given V[0], ..., V[N-1], each scryptBlockMix of the one before, and X before and after each of the N steps of section 5 that look V up at the little-endian value of the last 64 octets of X modulo N, scryptROMix is the last X |
| Scrypt.AcceptsExactly | backend/Godeps/_workspace/src/code.google.com/p/go.crypto/scrypt/scrypt.go:227-232 | for positive r and p, the guard passes exactly when N is a power of two above 1, r*p < 2^30, and neither 128*r*p, 128*r*N nor 256*r exceeds the largest int |
| Scrypt.AcceptedSizes | backend/Godeps/_workspace/src/code.google.com/p/go.crypto/scrypt/scrypt.go:230-238 | a call that passes the guard overflows in none of 64*r, 32*N*r and p*128*r |
| Scrypt.Key | backend/Godeps/_workspace/src/code.google.com/p/go.crypto/scrypt/scrypt.go:226-243 | Key fails exactly when the guard rejects, and otherwise returns the scrypt of section 6 of RFC 7914 over the PBKDF2 specification |
| KeySteps.ScryptIs | backend/Godeps/_workspace/src/code.google.com/p/go.crypto/scrypt/scrypt.go:234-242 | one PBKDF2 iteration gives p blocks, each is mixed by scryptROMix, and one PBKDF2 iteration with the mixed blocks joined as salt gives the key |
| Bits.AndPredecessor | backend/Godeps/_workspace/src/code.google.com/p/go.crypto/scrypt/scrypt.go:227 | N&(N-1) is zero exactly when N is a power of two |
| Bits.XorHas | backend/Godeps/_workspace/src/code.google.com/p/go.crypto/scrypt/scrypt.go:25-29 | bit k of an exclusive-or is set exactly when it is set in one operand; AndHas and OrHas say the same of the other two operators |
| Pbkdf2.Block | backend/Godeps/_workspace/src/code.google.com/p/go.crypto/pbkdf2/pbkdf2.go:54-74 | T, a window of dk xored in place with an overwritten U, ends as U_1 xor ... xor U_c for the block number; nothing outside the window changes |
| Pbkdf2.Key | backend/Godeps/_workspace/src/code.google.com/p/go.crypto/pbkdf2/pbkdf2.go:42-77 | the result is the first keyLen octets of the blocks T_1, T_2, ... joined, as in section 5.2 of RFC 2898, for every pseudorandom function of fixed length (and an iteration count below 1 acts as 1) |
| KeySteps.FIs | backend/Godeps/_workspace/src/code.google.com/p/go.crypto/pbkdf2/pbkdf2.go:54-74 | given U_1, the function of the password and of the salt with the four counter octets, and U_2, ..., U_c, each the function of the password and of the one before, F is their running exclusive-or |
| KeySteps.DerivedOctet | backend/Godeps/_workspace/src/code.google.com/p/go.crypto/pbkdf2/pbkdf2.go:45-76 | octet k of the key is octet k mod hLen of the block numbered k div hLen + 1 |
| Pbkdf2.DeriveExtends | backend/Godeps/_workspace/src/code.google.com/p/go.crypto/pbkdf2/pbkdf2.go:45-77 | a shorter key is a prefix of a longer one |
| Pbkdf2.Int4Encodes | backend/Godeps/_workspace/src/code.google.com/p/go.crypto/pbkdf2/pbkdf2.go:55-60 | the four counter octets are the block number exactly when it is below 2^32 |
| HstoreText.EncodeNull | backend/Godeps/_workspace/src/github.com/jackc/pgx/values.go:526-553 | for whatever order the map is visited in, the text written by the loop is the text of the map in an order that visits every key once |
| HstoreText.Encode | backend/Godeps/_workspace/src/github.com/jackc/pgx/values.go:460-478 | the same for a map without NULLs |
| HstoreText.QuoteSpells | backend/Godeps/_workspace/src/github.com/jackc/pgx/values.go:466-470 | the two successive replacements (backslashes, then quotes) spell every string as legal quoted units that mean that string |
| HstoreLaws.QuoteCharacter | backend/Godeps/_workspace/src/github.com/jackc/pgx/values.go:466-470 | each character is written as itself, after a backslash exactly if it is a quote or a backslash |
| HstoreLaws.TextExample | backend/Godeps/_workspace/src/github.com/jackc/pgx/values.go:526-553 | the text of a map with a quote in a key, a backslash for a value, and a NULL, character by character |
| HstoreParser.Reader.Consume | backend/Godeps/_workspace/src/github.com/jackc/pgx/hstore.go:33-41 | Consume returns the first unread code point and leaves the others |
| HstoreParser.ParseHstore | backend/Godeps/_workspace/src/github.com/jackc/pgx/hstore.go:88-223 | on every input the imperative parser ends with the error or the lists of the machine specification, and the lists are equally long |
| HstoreRoundTrip.AcceptedLanguage | backend/Godeps/_workspace/src/github.com/jackc/pgx/hstore.go:101-222 | the parser accepts a text exactly when it is a document of a grammar given independently of the machine, and then returns what the document means |
| HstoreLaws.EscapeMeaning | backend/Godeps/_workspace/src/github.com/jackc/pgx/hstore.go:121-132 | an escaped quote or backslash means itself, and any other escape both of its characters |
| HstoreLaws.ParseExample | backend/Godeps/_workspace/src/github.com/jackc/pgx/hstore.go:101-222 | one text with an escape that means nothing, escaped quotes and backslashes, a tab, an unread opening character and a NULL, with what it is parsed to |
| HstoreLaws.Errors | backend/Godeps/_workspace/src/github.com/jackc/pgx/hstore.go:101-163 | the error of each text that ends or goes wrong before a value |
| HstoreLaws.MoreErrors | backend/Godeps/_workspace/src/github.com/jackc/pgx/hstore.go:183-217 | the errors in the word NULL and after a value |
| HstoreRoundTrip.RoundTrip | backend/Godeps/_workspace/src/github.com/jackc/pgx/values.go:526-553 | parsing the encoded pairs gives them back, invalid values with an empty text, unless some key is empty: exactly then the parser refuses its own encoder's text (hstore.go:112-113) |
| HstoreRoundTrip.NullHstoreRoundTrip | backend/Godeps/_workspace/src/github.com/jackc/pgx/values.go:526-553 | for every finite map and iteration order, the parsed lists rebuild the map, NULLs included, exactly when no key is empty |
| HstoreRoundTrip.HstoreRoundTrip | backend/Godeps/_workspace/src/github.com/jackc/pgx/values.go:460-478 | the same for maps without NULLs, and no value comes back NULL |
| HstoreRoundTrip.ToNullHstore | backend/Godeps/_workspace/src/github.com/jackc/pgx/hstore.go:69-81 | the map built from the parsed lists, the last value of a repeated key winning, or the parser's error |
| HstoreRoundTrip.ToMap | backend/Godeps/_workspace/src/github.com/jackc/pgx/hstore.go:52-67 | the same, and an error as soon as some value is NULL |
| HstoreLaws.FilledLast | backend/Godeps/_workspace/src/github.com/jackc/pgx/hstore.go:75-79 | for a repeated key the map has the last of its values |
| Framing.HeaderRoundTrip | backend/Godeps/_workspace/src/golang.org/x/net/websocket/hybi.go:120-178 | parsing a written header followed by any octets consumes exactly the header and returns every field and the length; the opcode comes back exactly when it is below 16 |
| FrameOctets.FirstOctet | backend/Godeps/_workspace/src/golang.org/x/net/websocket/hybi.go:187-200 | the first octet is 128 for FIN, 64, 32 and 16 for the reserved bits, and the opcode |
| FrameOctets.WrittenOctets | backend/Godeps/_workspace/src/golang.org/x/net/websocket/hybi.go:201-229 | the second octet has the mask bit and the length up to 125, or code 126 and two octets below 65536, or code 127 and eight, most significant first; the masking key comes last |
| FrameOctets.ReadOctets | backend/Godeps/_workspace/src/golang.org/x/net/websocket/hybi.go:138-173 | of any octets: how many make a header, its masking key and its length, by the same codes; eight octets are an int64 |
| FrameOctets.ReadFirstOctet | backend/Godeps/_workspace/src/golang.org/x/net/websocket/hybi.go:125-136 | of any octets: FIN, the reserved bits and the opcode are the bits of the first |
| FrameOctets.MaskedBit | backend/Godeps/_workspace/src/golang.org/x/net/websocket/hybi.go:82-94 | bit by bit, octet i of a payload is flipped by octet i modulo 4 of the key, counted from where the piece starts |
| Framing.ShortestLength | backend/Godeps/_workspace/src/golang.org/x/net/websocket/hybi.go:205-224 | no header that parses to the same length and masking is shorter than the one written |
| Delivery.FrameRoundTrip | backend/Godeps/_workspace/src/golang.org/x/net/websocket/hybi.go:82-242 | reading a written frame followed by arbitrary octets recovers the header and, in any chunking, the payload, and leaves exactly the trailing octets; enough non-empty buffers reach the end of the payload |
| Framing.MaskedTwice | backend/Godeps/_workspace/src/golang.org/x/net/websocket/hybi.go:82-94 | masking twice at the same position is the identity |
| Framing.MaskedPieces | backend/Godeps/_workspace/src/golang.org/x/net/websocket/hybi.go:82-94 | masking a payload in pieces, each starting at the position the last one reached, is masking it whole |
| Conn.Conn.BuildHeader | backend/Godeps/_workspace/src/golang.org/x/net/websocket/hybi.go:187-228 | the header built octet by octet, with its three length forms, is the specified one, and building fails exactly on a key that is not four octets |
| Conn.Conn.WriteFrame | backend/Godeps/_workspace/src/golang.org/x/net/websocket/hybi.go:187-242 | a frame is appended to the output, masked when it has a key; on failure nothing is written |
| Conn.Conn.NewFrameReader | backend/Godeps/_workspace/src/golang.org/x/net/websocket/hybi.go:120-178 | reading a header octet by octet is ParseHeader on the whole input, and consumes exactly the header |
| Conn.Conn.FrameRead | backend/Godeps/_workspace/src/golang.org/x/net/websocket/hybi.go:82-94 | reading into a buffer and unmasking it in place returns the frame's next octets, whatever the chunking |
| Conn.Conn.HandleFrame | backend/Godeps/_workspace/src/golang.org/x/net/websocket/hybi.go:267-307 | each opcode and the masking rule lead to the specified state, answer and outcome |
| Conn.Conn.Read | backend/Godeps/_workspace/src/golang.org/x/net/websocket/websocket.go:171-198 | the `goto again` loop ends, with the state and result of the recursive specification |
| Conn.Conn.Write | backend/Godeps/_workspace/src/golang.org/x/net/websocket/websocket.go:201-214 | one final, correctly masked frame of the message is appended to the output, and the reading side is untouched |
| Conn.Conn.Receive | backend/Godeps/_workspace/src/golang.org/x/net/websocket/websocket.go:303-331 | the rest of the open frame is discarded and then one whole data frame is returned, as specified |
| Stream.NextFrameStep | backend/Godeps/_workspace/src/golang.org/x/net/websocket/hybi.go:267-307 | on a stream that starts with a written frame, the next frame is opened, or answered with a pong of its first 125 octets and skipped, or, an empty ping, ends the stream; the rest of the stream is left exactly |
| Opcodes.DataOpcodes | backend/Godeps/_workspace/src/golang.org/x/net/websocket/hybi.go:284-306 | any frame but 8, 9 and 10 is opened with its payload ahead; 0 takes the opcode of the last 1 or 2, which is remembered |
| Opcodes.PingOpcode | backend/Godeps/_workspace/src/golang.org/x/net/websocket/hybi.go:291-302 | 9 is answered with its first 125 octets under opcode 10 and skipped; an empty one ends the stream |
| Opcodes.CloseOpcode | backend/Godeps/_workspace/src/golang.org/x/net/websocket/hybi.go:289-290 | 8 ends the stream, unread and unanswered |
| Opcodes.PongOpcode | backend/Godeps/_workspace/src/golang.org/x/net/websocket/hybi.go:303-304 | 10 is the error ErrNotImplemented |
| Opcodes.WrongMask | backend/Godeps/_workspace/src/golang.org/x/net/websocket/hybi.go:268-280 | a frame masked or unmasked against its direction is answered with a close frame of status 1002 and ends the stream |
| Delivery.ReadsDeliver | backend/Godeps/_workspace/src/golang.org/x/net/websocket/websocket.go:171-198 | at every point of a run of reads, what was returned and what is still to come add up to the payloads sent, and likewise the pongs |
| Delivery.EndToEnd | backend/Godeps/_workspace/src/golang.org/x/net/websocket/websocket.go:171-198 | for every list of frames and pings and every sequence of buffer sizes and arrivals, the octets read are a prefix of the concatenated payloads, all of them once an error is met, with one pong of at most 125 octets per ping, and non-empty buffers reach the end in finitely many reads |
| Delivery.ToTheEnd | backend/Godeps/_workspace/src/golang.org/x/net/websocket/websocket.go:171-198 | the same with anything after the frames that ends the stream, and what is sent then |
| Opcodes.ReadsStop | backend/Godeps/_workspace/src/golang.org/x/net/websocket/websocket.go:171-198 | data frames and pings, then a close, a pong, an empty ping or a wrongly masked frame, then anything: the reads return a prefix of the data and then fail, nothing of the last frame or after it is returned, and what is sent is the pongs and at most the close of status 1002 |
| Opcodes.ReceivesStop | backend/Godeps/_workspace/src/golang.org/x/net/websocket/websocket.go:303-331 | Receive stops there too, after the whole messages |
| Delivery.AllDelivered | backend/Godeps/_workspace/src/golang.org/x/net/websocket/hybi.go:291-302 | the deliverable octets are all octets sent exactly when none follows an empty ping, which io.ReadFull turns into the end of the stream |
| Delivery.AllAnswered | backend/Godeps/_workspace/src/golang.org/x/net/websocket/hybi.go:291-302 | every ping is answered exactly when none is empty |
| Delivery.EmptyPingExample | backend/Godeps/_workspace/src/golang.org/x/net/websocket/hybi.go:291-302 | a stream of an empty ping and one octet of data: no run of reads returns the octet or answers the ping |
| Exchange.OutputIsWire | backend/Godeps/_workspace/src/golang.org/x/net/websocket/hybi.go:187-242 | what a side has written, data frames and pings, is the wire of legal items for the other side |
| Exchange.OwnFrame | backend/Godeps/_workspace/src/golang.org/x/net/websocket/hybi.go:251-260 | a frame that this side writes starts with 128 plus its opcode, is masked exactly when this side is the client, and is its header and then its payload |
| Exchange.Talk | backend/Godeps/_workspace/src/golang.org/x/net/websocket/websocket.go:171-214 | messages written by Conn.Write on one side and read by Conn.Read on the other, in any sizes and arrivals: the reads return a prefix of the messages joined, all of them once a read meets the end, and enough non-empty buffers meet it |
| Exchange.LogIsRead | backend/Godeps/_workspace/src/golang.org/x/net/websocket/websocket.go:171-214 | data frames and pings written on one side: the reads on the other return a prefix of the data and send a prefix of the pongs, both whole once a read meets the end, as it does with enough non-empty buffers |
| Delivery.ReceiveAll | backend/Godeps/_workspace/src/golang.org/x/net/websocket/websocket.go:286-331 | n calls of Receive return the next n data frames whole, each as one message of its own type, wherever in a frame the reader was |
| Messages.WriteBuf.CloseMsg | backend/Godeps/_workspace/src/github.com/jackc/pgx/messages.go:103-105 | patching the length in place makes the buffer the concatenation of all messages, each with its type and length |
| Messages.WriteBuf.StartMsg | backend/Godeps/_workspace/src/github.com/jackc/pgx/messages.go:97-101 | the open message is finished and an empty one begun |
| Messages.Replay | backend/Godeps/_workspace/src/github.com/jackc/pgx/messages.go:85-136 | any sequence of writes and starts ending in closeMsg leaves the encoding of the messages that the operations mean |
| Bytes.SignedRoundTrip | backend/Godeps/_workspace/src/github.com/jackc/pgx/messages.go:116-132 | an integer written in k octets is read back as itself exactly when it fits k octets, two's complement, and wrapped otherwise |
| Messages.LengthWord | backend/Godeps/_workspace/src/github.com/jackc/pgx/messages.go:103-105 | the length word is read back as the payload's length exactly when that is below 2^31 octets |
| WireLaws.MessageOctets | backend/Godeps/_workspace/src/github.com/jackc/pgx/messages.go:97-105 | a message is its type, a four-octet length that counts itself and the payload, and the payload |
| WireLaws.SignedOctets | backend/Godeps/_workspace/src/github.com/jackc/pgx/messages.go:116-132 | an integer is written in two's complement, most significant octet first |
| Messages.SplitsBack | backend/Godeps/_workspace/src/github.com/jackc/pgx/msg_reader.go:30-43 | what was written splits back into exactly the messages written |
| Reader.MsgReader.RxMsg | backend/Godeps/_workspace/src/github.com/jackc/pgx/msg_reader.go:30-43 | the leftover of the last message is skipped and the next header read, as specified, with the nil error of a reader that has already failed |
| Reader.MsgReader.ReadN | backend/Godeps/_workspace/src/github.com/jackc/pgx/msg_reader.go:183-203 | a read takes its octets within the message's budget, or fails for good |
| WireLaws.TakeDecided | backend/Godeps/_workspace/src/github.com/jackc/pgx/msg_reader.go:183-203 | a read within the budget and the input returns exactly the next octets; any other fails for good |
| WireLaws.CStringRead | backend/Godeps/_workspace/src/github.com/jackc/pgx/msg_reader.go:134-152 | readCString returns the octets before the first NUL and leaves those after it |
| WireLaws.RxDecided | backend/Godeps/_workspace/src/github.com/jackc/pgx/msg_reader.go:30-43 | what rxMsg skips, when it fails, and what it takes |
| Reader.NextMessage | backend/Godeps/_workspace/src/github.com/jackc/pgx/msg_reader.go:30-203 | after any mix of reads on a message, if none failed, the next rxMsg starts at the next message, with its whole payload ahead |
| Reader.StuckAfterError | backend/Godeps/_workspace/src/github.com/jackc/pgx/msg_reader.go:31-33 | after a failed read every further read does nothing and rxMsg returns type 0 with a nil error |
| Reader.NextColumnLands | backend/Godeps/_workspace/src/github.com/jackc/pgx/query.go:190-208 | wherever in a column reading stopped, nextColumn lands at the start of the next, with its size, NULLs included |
| WireLaws.ColumnOctets | backend/Godeps/_workspace/src/github.com/jackc/pgx/values.go:980-1002 | a column is an int32 and that many octets, or -1 and none |
| WireLaws.ValueDecided | backend/Godeps/_workspace/src/github.com/jackc/pgx/value_reader.go:111-128 | a read within the value's budget returns the next octets and counts against both budgets; one beyond it fails and reads nothing |
| Reader.RowWalk | backend/Godeps/_workspace/src/github.com/jackc/pgx/query.go:190-208 | whatever each column's decoder reads, each step along a row meets the whole size of the row's next column and exactly as many of its octets, from its start, as were asked for |
| Reader.StaleValue | backend/Godeps/_workspace/src/github.com/jackc/pgx/query.go:154-155 | whatever follows the new row, nextColumn lands in its first column exactly when no octet of the old row's last value was left unread: Next resets columnIdx but not vr |
| Reader.StaleExample | backend/Godeps/_workspace/src/github.com/jackc/pgx/query.go:154-155 | a concrete row that is misread |
| Arrays.EncodeArray | backend/Godeps/_workspace/src/github.com/jackc/pgx/values.go:1243-1260 | the size written first, the header and the elements: the length prefix is exactly what the loop then writes |
| Arrays.EncodeTextArray | backend/Godeps/_workspace/src/github.com/jackc/pgx/values.go:1568-1594 | the same for strings, whose sizes are summed beforehand |
| Arrays.TextElementsSize | backend/Godeps/_workspace/src/github.com/jackc/pgx/values.go:1574-1591 | four octets per element and their total length is what the loop of text elements writes |
| WireLaws.HeaderOctets | backend/Godeps/_workspace/src/github.com/jackc/pgx/values.go:1654-1661 | the first twenty octets of an array: one dimension, no NULLs, the type of the elements, their number, and 1 |
| WireLaws.ElementOctets | backend/Godeps/_workspace/src/github.com/jackc/pgx/values.go:1243-1422 | element i is its width and its value in that many octets, at its place |
| ArrayReader.ValueReader.DecodeArray | backend/Godeps/_workspace/src/github.com/jackc/pgx/values.go:1202-1241 | the decoding loop, its error cases and its NULL and size checks are the specified ones |
| ArrayReader.ValueReader.DecodeTextArray | backend/Godeps/_workspace/src/github.com/jackc/pgx/values.go:1533-1566 | the same for strings |
| WireLaws.HeaderDecided | backend/Godeps/_workspace/src/github.com/jackc/pgx/values.go:1180-1200 | no dimensions are no elements; more than one, or another lower bound than 1, is an error |
| WireLaws.DecodeRefuses | backend/Godeps/_workspace/src/github.com/jackc/pgx/values.go:1202-1221 | a NULL array is nil and no error; another type or format is an error; neither is read |
| ArrayReader.ArrayRoundTrip | backend/Godeps/_workspace/src/github.com/jackc/pgx/values.go:1202-1422 | every slice of bool, int16, int32 or int64 is decoded from its encoding, which is consumed entirely and no further |
| ArrayReader.TextArrayRoundTrip | backend/Godeps/_workspace/src/github.com/jackc/pgx/values.go:1533-1594 | the same for slices of text |
| Timestamp.EncodedExactly | backend/Godeps/_workspace/src/github.com/jackc/pgx/values.go:1124-1137 | the wire carries the floored microseconds since 2000 exactly when they fit an int64 |
| Timestamp.RoundTrip | backend/Godeps/_workspace/src/github.com/jackc/pgx/values.go:1089-1137 | decoding an encoded instant, before or after 1970 and 2000, gives it floored to the microsecond exactly when its microseconds since 1970 fit an int64 |
| WireLaws.Epoch | backend/Godeps/_workspace/src/github.com/jackc/pgx/values.go:1087-1137 | the wire counts from thirty years and seven leap days after 1970 |
| WireLaws.Truncates | backend/Godeps/_workspace/src/github.com/jackc/pgx/values.go:1116-1117 | quotient and remainder drop the fraction, also below zero |
| Scalars.ReadNumber | backend/Godeps/_workspace/src/github.com/jackc/pgx/values.go:609-871 | decodeInt2, decodeInt4, decodeInt8 and decodeOid, their checks and their errors |
| Scalars.ReadBool | backend/Godeps/_workspace/src/github.com/jackc/pgx/values.go:555-589 | decodeBool in text and in binary |
| Scalars.ReadTime | backend/Godeps/_workspace/src/github.com/jackc/pgx/values.go:1089-1122 | decodeTimestampTz, which reads on after an invalid size |
| Scalars.NumberRoundTrip | backend/Godeps/_workspace/src/github.com/jackc/pgx/values.go:609-871 | an integer or oid that fits its type is decoded as itself from what its encoder wrote, and its column is used up |
| Scalars.BoolRoundTrip | backend/Godeps/_workspace/src/github.com/jackc/pgx/values.go:555-607 | the same for booleans |
| Scalars.StringRoundTrip | backend/Godeps/_workspace/src/github.com/jackc/pgx/values.go:980-1002 | the same for strings |
| Scalars.ByteaRoundTrip | backend/Godeps/_workspace/src/github.com/jackc/pgx/values.go:1004-1041 | the same for octet strings in binary |
| Scalars.TimeRoundTrip | backend/Godeps/_workspace/src/github.com/jackc/pgx/values.go:1089-1137 | a time comes back from its column floored to the microsecond exactly when its microseconds since 1970 fit an int64 |
| Scalars.Refused | backend/Godeps/_workspace/src/github.com/jackc/pgx/values.go:555-1122 | a NULL, another type, another format and another width are errors, and nothing is read, except that a NULL octet string is nil |
| Bind.SendPreparedQuery | backend/Godeps/_workspace/src/github.com/jackc/pgx/conn.go:533-647 | a wrong argument count or an argument that cannot be encoded sends nothing; otherwise exactly the octets of Bind, Execute and Sync are sent |
| Bind.EncodeArg | backend/Godeps/_workspace/src/github.com/jackc/pgx/conn.go:566-626 | whatever encoder an argument takes, array loops included, what is really written is its column: a length and exactly that many octets, or the length of a NULL; an argument of the wrong type is an error |
| WireLaws.Formats | backend/Godeps/_workspace/src/github.com/jackc/pgx/conn.go:542-559 | strings are sent as text, an Encoder chooses, and exactly the listed types are sent in binary |
| WireLaws.Values | backend/Godeps/_workspace/src/github.com/jackc/pgx/values.go:591-1137 | what each kind of argument but integers carries, and for which types it is accepted |
| WireLaws.IntegerValues | backend/Godeps/_workspace/src/github.com/jackc/pgx/values.go:641-828 | an integer is refused exactly above its type's maximum, written in its type's width, and read as itself exactly when it is not below the minimum |
| WireLaws.BindParts | backend/Godeps/_workspace/src/github.com/jackc/pgx/conn.go:538-631 | the parts of a Bind message in their order |
| Bind.BindRoundTrip | backend/Godeps/_workspace/src/github.com/jackc/pgx/conn.go:533-647 | a reader of the protocol's Bind format gets back the statement name, formats, every parameter and the result formats |
| Bind.SentIsRead | backend/Godeps/_workspace/src/github.com/jackc/pgx/conn.go:533-647 | what is sent splits into exactly three messages: a Bind that is read back as the statement, formats, parameters and result formats it was built from, an Execute of the unnamed portal with row limit 0, which is none, and an empty Sync |
| Bind.IntArgExact | backend/Godeps/_workspace/src/github.com/jackc/pgx/values.go:707-828 | an integer accepted for int2 or int4 is sent as itself exactly when it is not below the type's minimum, which only the upper check guards |
| Bind.IntArgExample | backend/Godeps/_workspace/src/github.com/jackc/pgx/values.go:707-754 | -32769 is sent for int2 as 32767 |
| ConnPool.ConnPool.Acquire | backend/Godeps/_workspace/src/github.com/jackc/pgx/conn_pool.go:68-99 | the critical section up to its first wait |
| ConnPool.ConnPool.AcquireWoken | backend/Godeps/_workspace/src/github.com/jackc/pgx/conn_pool.go:96-104 | the test of the wait loop, made again each time the wait returns: the last available connection is taken, or the thread waits; the pool being closed is not looked at |
| ConnPool.ConnPool.Release | backend/Godeps/_workspace/src/github.com/jackc/pgx/conn_pool.go:113-127 | a live connection becomes available; a dead one leaves all connections by swap-removal |
| ConnPool.ConnPool.NewConnPool | backend/Godeps/_workspace/src/github.com/jackc/pgx/conn_pool.go:33-65 | no pool below two connections (zero means five); an empty pool beside the error without a first connection; otherwise that connection is all and available |
| ConnPool.ConnPool.Close | backend/Godeps/_workspace/src/github.com/jackc/pgx/conn_pool.go:133-149 | the pool is marked closed; if every connection is available all are closed, one after another, and otherwise none is and Close waits |
| ConnPool.ConnPool.CloseWoken | backend/Godeps/_workspace/src/github.com/jackc/pgx/conn_pool.go:140-148 | the same test, and the closing loop after it, each time the wait returns |
| PoolLaws.NewDecided | backend/Godeps/_workspace/src/github.com/jackc/pgx/conn_pool.go:33-65 | when there is a pool, and what is in it |
| PoolLaws.AcquireDecided | backend/Godeps/_workspace/src/github.com/jackc/pgx/conn_pool.go:68-99 | each outcome of Acquire exactly when it occurs: refused when closed, the connection released last, a new one or the failure to make it while there is room, and waiting otherwise |
| PoolLaws.ReleaseDecided | backend/Godeps/_workspace/src/github.com/jackc/pgx/conn_pool.go:113-127 | a live connection is available last; a dead one is one fewer among all, and nothing else changes |
| PoolLaws.SignalDecided | backend/Godeps/_workspace/src/github.com/jackc/pgx/conn_pool.go:127 | a Signal wakes one sleeping thread, or nobody exactly when nobody sleeps |
| ConnPool.NextInv | backend/Godeps/_workspace/src/github.com/jackc/pgx/conn_pool.go:68-149 | every step of every thread keeps the ownership invariant (available connections distinct, all the disjoint union of available and held, at most max), and no held connection changes hands |
| ConnPool.RunInv | backend/Godeps/_workspace/src/github.com/jackc/pgx/conn_pool.go:68-149 | the invariant holds after every interleaving |
| PoolLaws.Reached | backend/Godeps/_workspace/src/github.com/jackc/pgx/conn_pool.go:68-149 | spelt out for every state that a run from a new pool reaches: no connection twice, all are those available and those held, none both, at most the maximum |
| ConnPool.HeldUntilReleased | backend/Godeps/_workspace/src/github.com/jackc/pgx/conn_pool.go:68-149 | a connection stays with its holder, whatever others do, until that holder releases it |
| ConnPool.CloseReachesLoop | backend/Godeps/_workspace/src/github.com/jackc/pgx/conn_pool.go:133-149 | in every reachable state Close passes its wait exactly when nothing is held |
| ConnPool.ClosedStays | backend/Godeps/_workspace/src/github.com/jackc/pgx/conn_pool.go:68-76 | after Close was called every new Acquire is refused |
| ConnPool.AfterClosing | backend/Godeps/_workspace/src/github.com/jackc/pgx/conn_pool.go:94-127 | once nothing is held after Close was called, as when its closing loop runs, no run hands a connection out again exactly when nothing is available or no thread inside Acquire has been woken by a Signal or can still be: such a thread rechecks only availability |
| ConnPool.WaiterAfterClose | backend/Godeps/_workspace/src/github.com/jackc/pgx/conn_pool.go:94-105 | a run from a new pool that hands a connection out after the closing loop |
| ConnPool.StrandedWaiter | backend/Godeps/_workspace/src/github.com/jackc/pgx/conn_pool.go:94-127 | a run that closes the pool with a thread waiting and a connection available but nobody left to wake it |
| ConnPool.LeakBlocksClose | backend/Godeps/_workspace/src/github.com/jackc/pgx/conn_pool.go:133-144 | while a thread holds a connection that it never releases, no Close reaches its closing loop in any run |
| Slices.SwapRemoved | backend/Godeps/_workspace/src/github.com/jackc/pgx/conn_pool.go:117-124 | swap-removal takes out exactly the connection removed, and keeps the rest distinct |
| Rows.Rows.MarkClosed | backend/Godeps/_workspace/src/github.com/jackc/pgx/query.go:59-81 | the rows close once, and the pool changes by one release exactly when they did |
| Rows.Rows.ReadUntilReadyForQuery | backend/Godeps/_workspace/src/github.com/jackc/pgx/query.go:83-108 | for every message stream the loop ends with the specified state and connection |
| Rows.Rows.Close | backend/Godeps/_workspace/src/github.com/jackc/pgx/query.go:112-118 | closing drains the connection, once |
| Rows.Rows.Fatal | backend/Godeps/_workspace/src/github.com/jackc/pgx/query.go:137-144 | the first error closes; later ones do nothing |
| Rows.Rows.Next | backend/Godeps/_workspace/src/github.com/jackc/pgx/query.go:149-188 | for every message stream the loop ends with a row, or closed, as specified |
| Rows.Rows.Scan | backend/Godeps/_workspace/src/github.com/jackc/pgx/query.go:212-297 | columns are scanned until one fails, which closes the rows |
| Rows.Rows.RowScan | backend/Godeps/_workspace/src/github.com/jackc/pgx/query.go:16-37 | Row.Scan returns with the rows closed and the pool changed by exactly one release in all |
| Rows.Query | backend/Godeps/_workspace/src/github.com/jackc/pgx/conn_pool.go:189-204 | the rows returned and the release of the pool itself when sending failed |
| RowsLaws.NextDecided | backend/Godeps/_workspace/src/github.com/jackc/pgx/query.go:149-188 | the first message that Next does not read past decides it: a row exactly when it is a DataRow of the right count, an end without an error exactly when it is ReadyForQuery, and otherwise an error that is recorded |
| RowsLaws.NextUndecided | backend/Godeps/_workspace/src/github.com/jackc/pgx/query.go:157-162 | a failed read, a dead connection and a stuck reader are recorded as errors |
| RowsLaws.CloseDecided | backend/Godeps/_workspace/src/github.com/jackc/pgx/query.go:83-118 | closing reads up to and including the first message that stops it, and leaves the connection as that message does |
| RowsLaws.ScanDecided | backend/Godeps/_workspace/src/github.com/jackc/pgx/query.go:212-297 | Scan fails, and records it, exactly when the number of destinations is wrong or some column's value reader fails |
| RowsLaws.RowScanRecords | backend/Godeps/_workspace/src/github.com/jackc/pgx/query.go:16-37 | after Row.Scan there is an error exactly when there was one, Next ended with one, or the scan failed |
| RowsLaws.ErrorsRecorded | backend/Godeps/_workspace/src/github.com/jackc/pgx/query.go:126-144 | abort and Fatal record the first error and close |
| RowsLaws.QueryRecords | backend/Godeps/_workspace/src/github.com/jackc/pgx/conn_pool.go:189-204 | the rows of a refused Acquire or of an unsent query have an error |
| RowsModel.LifeInv | backend/Godeps/_workspace/src/github.com/jackc/pgx/query.go:59-188 | for every message stream and every legal sequence of Next, Scan, Close and Fatal: an error means closed, and the connection is released at most once, exactly when the rows close |
| RowsLaws.Lives | backend/Godeps/_workspace/src/github.com/jackc/pgx/query.go:59-188 | the same spelt out for rows as the pool hands them out |
| RowsModel.PerformInv | backend/Godeps/_workspace/src/github.com/jackc/pgx/query.go:59-188 | each call keeps that invariant; Close, Fatal and a Next that returns false leave the rows closed |
| RowsModel.ClosedClean | backend/Godeps/_workspace/src/github.com/jackc/pgx/query.go:83-118 | closing open rows releases their connection alive and drained exactly when a whole ReadyForQuery comes before any error, and alive but not ready exactly when its reader is stuck or the first stop is anything else that does not kill it, such as an error that is not fatal |
| RowsModel.UndrainedExample | backend/Godeps/_workspace/src/github.com/jackc/pgx/query.go:101-105 | rows closed before the server's error is read: their connection is released alive with the ReadyForQuery still to come |
| RowsModel.RowScanReleases | backend/Godeps/_workspace/src/github.com/jackc/pgx/query.go:16-37 | Row.Scan always leaves the rows closed and released exactly once |
| RowsModel.QueryRowReleases | backend/Godeps/_workspace/src/github.com/jackc/pgx/conn_pool.go:189-212 | however QueryRow and Scan go, an acquired connection is released exactly once, by the rows or by the pool |
| Rows.Tx.Commit | backend/Godeps/_workspace/src/github.com/jackc/pgx/tx.go:63-71 | a closed transaction reports so; otherwise it closes whether or not its SQL succeeded, with one release |
| Rows.Tx.Rollback | backend/Godeps/_workspace/src/github.com/jackc/pgx/tx.go:77-85 | the same |
| Rows.Begin | backend/Godeps/_workspace/src/github.com/jackc/pgx/conn_pool.go:216-229 | the transaction, when a connection was acquired and begin succeeded; the pool is unchanged on every path, so after a failed begin an acquired connection is neither released nor in a transaction that would release it |
| Rows.FailedBeginExample | backend/Godeps/_workspace/src/github.com/jackc/pgx/conn_pool.go:216-229 | a pool whose only connection was acquired for a begin that failed: nothing is available and Close waits |
| Rows.Transact | backend/Godeps/_workspace/src/github.com/jackc/pgx/conn_pool.go:216-229 | begin and then any list of commits and rollbacks: the pool changes by one release, at the first of them, exactly when the transaction began and was ended at all |
| RowsModel.TxReleases | backend/Godeps/_workspace/src/github.com/jackc/pgx/tx.go:63-93 | over any number of commits and rollbacks the connection is released exactly once, and not before the first |
| Signal.MessageSignal.Remove | backend/message_signal.go:39-51 | the first occurrence is swap-removed |
| Slices.SwapRemoveCount | backend/message_signal.go:43-48 | a removal takes exactly one occurrence of its channel away and none of any other |
| Signal.MessageSignal.Dispatch | backend/message_signal.go:54-61 | every channel receives one copy for each time it was added |
| SignalLaws.AddStep | backend/message_signal.go:33-37 | the step of Add registers its channel once more and changes nothing else |
| SignalLaws.RemoveStep | backend/message_signal.go:40-51 | the step of Remove takes its channel off once, if it is on, and changes nothing else |
| SignalLaws.DispatchStep | backend/message_signal.go:54-61 | a step of Dispatch sends one copy to the next listener |
| SignalLaws.AloneRuns | backend/message_signal.go:33-51 | an Add or Remove that nobody interrupts is its method |
| Signal.NextDelivered | backend/message_signal.go:33-61 | every step of every thread keeps the account: what a channel has received is its share of all completed dispatches, in order, and of the one in flight |
| Signal.RunInv | backend/message_signal.go:33-61 | mutual exclusion and that account hold after every interleaving of any number of calls |
| Signal.DispatchCompletes | backend/message_signal.go:54-61 | from the lock of a dispatch to its unlock, whatever other threads do, each channel receives exactly one copy per registered occurrence |
| Signal.ReceivesAll | backend/message_signal.go:54-61 | a listener registered throughout receives every message dispatched meanwhile, in order, and perhaps the one in flight |
| Signal.SameOrder | backend/message_signal.go:33-61 | two listeners registered throughout see the same messages in the same order and differ by at most the one in flight |
| Listeners.ClientConn.AddRepositoryListeners | backend/ws.go:261-275 | each signal loses the connection's old channel and gains its new one |
| Listeners.ClientConn.RemoveRepositoryListeners | backend/ws.go:277-293 | each signal loses the connection's channel, if it has one |
| ListenersLaws.RegistersAlone | backend/ws.go:261-275 | the steps of a registration that nobody interrupts change every signal as the method does, and nobody else |
| ListenersLaws.LeavesAlone | backend/ws.go:84-85 | the deferred removal, from wherever the connection ends, likewise |
| Listeners.NextInv | backend/ws.go:261-293 | every step of every connection keeps the registration invariant |
| Listeners.AtMostOneListener | backend/ws.go:84-85 | in every reachable state, over any number of connections that register again and again and end anywhere: each signal holds at most one channel per connection, its current one; exactly one between requests once registered; none once the deferred removal has completed |
| Speculative.Handler.Log | backend/Godeps/_workspace/src/gopkg.in/inconshreveable/log15.v2/ext/handler.go:62-69 | one record replaces the oldest slot, and the ring still holds the last records logged |
| Speculative.Handler.Flush | backend/Godeps/_workspace/src/gopkg.in/inconshreveable/log15.v2/ext/handler.go:71-90 | what is written is the last min(n, size) of the n records logged since the last flush, oldest first, and the ring is empty after |
| Speculative.HandlerRuns | backend/Godeps/_workspace/src/gopkg.in/inconshreveable/log15.v2/ext/handler.go:47-90 | the same for every flush of every sequence of Log and Flush calls on a ring of any positive size |

## Left out

- SHA-256 and HMAC: any function with outputs of one fixed length stands for them.
- Text that is not valid UTF-8: a Go string is modelled by its code points, so the replacement character that decoding would produce does not appear.
- hstore values read from the wire as NULL columns (`Hstore.Scan`, `NullHstore.Scan`) and the length prefix of the encoded text: one branch each, around the text that is modelled.
- Scrypt.Key: r and p are positive, since the guard divides by both; a zero r or p panics there.
- WebSocket handshakes, TLS, deadlines, `Conn.Close` and marshalling to JSON.
- Conn.Conn.Read: the number of octets that have arrived is one value for all reads of one call.
- Conn.Conn.NewHeader: the masking key is arbitrary; that it is random is not modelled.
- Failing writes to the network: `WriteFrame`, `sendPreparedQuery` and pongs always reach the output, except for a bad masking key.
- Arrays.EncodeArray: the fixed-width encoders are one loop over an element kind, and so are the decoders in `ArrayReader.ValueReader.DecodeArray`; they differ in the source only in the width and the type number.
- Arrays of float4, float8 and timestamps: the same loops, over values whose conversion to octets is not modelled.
- ArrayReader.ValueReader.DecodeTextArray: a negative element size is reported as a panic, as slicing would; nothing is stated of the reader afterwards.
- Scalars.ReadText: a size below -1, which no server sends, panics in the source and reads nothing here; numbers and times sent as text are parsed by library calls, whose results are parameters; an octet string sent as text is not modelled.
- Bind.EncodeArg: floats, dates, times and values with their own encoder appear as the octets they convert to.
- Reader.NextMessage: declared lengths stay within int32, as the wire format requires.
- The `String`, `Oid` and float readers of `msgReader` and `ValueReader`: the same code as the reads modelled, at other result types.
- ConnPool.ConnPool.Release: what it does before taking the lock (rolling an open transaction back) appears as the connection being alive or not; that rollback never ends when the message reader is stuck; `Stat` and logging are not modelled.
- ConnPool.AfterClosing: a Signal wakes any one of the threads that wait, as the condition variable documents; no order among them is modelled.
- Liveness of the pool and the signals: waiters may wait for ever and a blocked receiver blocks its signal; the code does not aim for more.
- Rows.Rows.Scan: decoding a destination is one outcome per column, whether the value reader failed and whether the message reader did; what is decoded is the subject of `Reader` and `ArrayReader`.
- Rows.Tx.Commit: the statement that is executed appears as the connection it leaves and its success; isolation levels only change its text.
- `Rows.Values`, prepared statement caching, notifications and `Conn.Exec`.
- Signal.MessageSignal.Dispatch: sending to a channel and receiving from it are one step, as for the unbuffered channels that are used; channel_signal.go and user_signal.go are the same code at other types.
- Login, sessions, password resets and the other requests of ws.go, and the repositories behind them: mostly single-branch checks.
- Speculative.Handler: a ring of size zero panics in the source when a record is logged and is not modelled; the wrapped handler is the list of records it is given.
- The other log handlers, the command line and configuration packages, mail, the database/sql adapter and the browser frontend.
