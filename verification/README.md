# Verified models of the remote-desktop client

A Dafny 4.11 model of the parts of the client whose correctness rests on more than one
function, with proofs about every input, every run or every interleaving.
`dafny verify dfyconfig.toml` checks the whole project.

| files | what they model |
|---|---|
| `Audio.dfy` | the adaptive audio ring buffer: a bounded FIFO, an occupancy histogram and the drop decision every 12 s |
| `Text.dfy`, `Base64Url.dfy`, `CustomServer.dfy`, `NameRoundTrip.dfy`, `SignedNames.dfy` | the server configuration carried in the file name: JSON, signed or not, base64url (section 5 of RFC 4648), reversal, and the parser that recovers it |
| `ClipboardCodec.dfy`, `ClipboardSync.dfy`, `ClipboardItems.dfy` | clipboard contents as messages, and the synchronisation protocol over any network of machines and clipboard subscribers |
| `Login.dfy` | where a connection's password comes from, and when it is stored |
| `LinkPaths.dfy`, `ArchiveLinks.dfy` | link targets of source archives and the multi-pass loop that turns links into copies |
| `SessionRegistry.dfy`, `SoftRender.dfy` | the registry of UI sessions and the hand-over of decoded frames to the UI |
| `PortForward.dfy` | one forwarded connection, from login to raw forwarding |
| `Throttle.dfy`, `PunchUdp.dfy`, `OnlineStates.dfy` | the throttled interval, the UDP punch back-off and the online bitmap |
| `Common.dfy` | shared types and one fact of arithmetic |

Objects that the program updates in place are classes whose methods are proved equal to
functions on values; the properties over whole runs are proved of those functions. Loops
stay loops. Concurrent code is a step relation: a property of "every run" holds for every
sequence of enabled steps. Calls into libraries (JSON, signatures, compression, UTF-8,
SHA-256) are function parameters with only the laws a lemma names; clock readings,
network arrivals and the success of a send or a clipboard write are parameters or fields of
events.

## What was found

- The file-name parser loses a configuration whose token holds no separator of its own
  exactly when the separator in front does not stay recognisable after the prefix
  (`NameReadsBackIff`). That is so for a prefix that ends in an
  odd number of dashes (`OneDashTooMany`). For a prefix that ends in `-licensed` it depends on
  the separator: before `-licensed-` the configuration is always lost, before `-licensed--` it
  is lost unless an odd number of dashes stands in front of that `-licensed`
  (`LicensedTwice`), and before `--` or `-licensed---` it is lost if an odd number does.
- The name printed by the generator's own command line (src/naming.rs:21) has no separator in
  front of the token, and the parser finds no configuration in it: always for ASCII JSON
  (`AsciiGeneratedNameIsLost`), and for any other token that holds no separator of its own
  (`GeneratedNameIsLost`).
- A configuration with characters outside ASCII can print as a token that holds a separator
  of its own, for example with "c" and a fullwidth exclamation mark at a multiple of three
  bytes (`FullwidthPrintsDashes`). The parser then sees only its pieces (`AnyNameYields`), and
  the configuration is not recovered (`CutNameIsLost`, `FullwidthNameIsLost`): over all
  configurations, recovery means that the separator in front stays recognisable and the token
  holds none (`NameRecoveredIff`).
- A shared address-book password reaches the stored peer configuration, or the personal
  address book, exactly when it is handed over by connection token and gets by without its
  tag, over a stored password (`SharedStoredIff`, `SharedPushedIff`, and `ChainSharedIff` for
  every chain of sessions). It gets by when the session starts with a side switch, or when an
  earlier session lost the tag and no shared password of the session's own replaces it. So a
  session without any side switch can store it (`LostTagIsStoredLater`).
- Switching a UI session to several displays, or to one on a non-desktop, drops the capture
  of displays that only other UI sessions show (`SwitchKeepsOthersIff`).
- A special clipboard item that does not compress arrives as its own name
  (`IncompressibleSpecial`).
- The bound on what the audio buffer drops holds for every sample rate, not only for
  rates of ten samples a second or more (`SkipIsSafe`).
- The UDP punch sends at most 104 packets as long as no sleep ends early
  (`SleepBoundsPackets`). Its own looks at the clock do not ensure that: if a sleep may end
  early, a 105th packet is possible exactly when 12 ms may pass between the two looks of one
  turn (`MoreThan104Iff`, with the run in `OneMoreThan104`).
- The bytes of a frame that the UI fetches are safe until it asks for the next frame, or the
  map is cleared, if and only if some UI session has been told of that frame
  (`OverwrittenIff`). Before that the producer may find nobody to tell, take the frame back
  and decode the next one into the same buffer; a first frame on a client without UI sessions
  is such a frame (`FirstFrameMayBeOverwritten`).

## Model

| member | source | states |
|---|---|---|
| Audio.AudioBuffer.constructor | src/client.rs:1205-1214 | the default buffer: empty, three seconds of 48 kHz stereo, all counts zero |
| Audio.AudioBuffer.Resize | src/client.rs:1219-1227 | a new empty ring exactly when the capacity changes; the histogram stays |
| Audio.AudioBuffer.AppendPcm2 | src/client.rs:1294-1308 | the ring holds the newest samples of old content and block, up to its capacity, and the occupancy is returned, on both branches |
| Audio.AudioBuffer.Scan | src/client.rs:1252-1274 | the single in-place pass returns the leading zero run and the first largest of buckets 1 to 29 of the original histogram although it clears entries as it goes, and leaves every bucket zero |
| Audio.AudioBuffer.Drop | src/client.rs:1268-1288 | drops from the front exactly the even amount the histogram allows, if more than three times that is buffered |
| Audio.AudioBuffer.TryShrink | src/client.rs:1229-1289 | counts the occupancy, and when twelve seconds have passed evaluates, clears and drops |
| Audio.AudioBuffer.AppendPcm | src/client.rs:1313-1316 | append, then shrink with the occupancy after the append |
| Audio.AudioBuffer.FillOutput | src/client.rs:1489-1530 | the device hears the oldest samples in order, then silence; they leave the ring |
| Audio.ModeIsUnique | src/client.rs:1261-1266 | the property of the scanned maximum determines it |
| Audio.LeadingZerosMeaning | src/client.rs:1257-1259 | everything before the leading zero run's end is zero, the next bucket is not |
| Audio.SkipIsSafe | src/client.rs:1268-1284 | the amount wanted is at most every occupancy counted in the window at the present rate, for every rate |
| Audio.CountedAtMode | src/client.rs:1270-1276 | something is dropped only if the most frequent occupancy counted is 600 ms or more |
| Audio.RunInvariant | src/client.rs:1204-1317 | every run of appends, shrinks, pops and resizes: capacity is three seconds, the ring is exactly the tail of the appended stream, appended = played + dropped + buffered, samples are played in order and at most once, the histogram counts its window |
| Audio.RunExtends | src/client.rs:1229-1316 | no run is stuck: in every reachable state the shrink an append calls for divides by a positive rate, and every enabled event leads to a longer run |
| Audio.ShrinkIsSafe | src/client.rs:1229-1289 | in every run a shrink drops from the front an even count, less than a third of the buffer and at most every occupancy counted since the last clearing; an evaluation leaves all buckets zero |
| Audio.ShrinkDropsExactly | src/client.rs:1229-1289 | how much every shrink of every run drops, from the occupancies counted alone: nothing unless twelve seconds have passed and the first most frequent tenth of a second is the sixth or later; else the even one of q and q + 1, where q is the capacity times the lesser of that tenth and four times two thirds of the least one, over 120, if three times it is below what is buffered |
| Audio.TenthsExist | src/client.rs:1252-1266 | every window that counts something has a least and a first most frequent tenth |
| Audio.AppendDropsOverflow | src/client.rs:1294-1308 | in every run an append drops exactly what does not fit into three seconds, from the old end |
| Audio.PopHearsTheNext | src/client.rs:1489-1530 | in every run the device hears exactly the next samples of the stream, as many as it asks for or there are |
| Audio.ResizeDropsAllIff | src/client.rs:1219-1227 | in every run a resize drops everything if the rate changes and changes nothing if it does not |
| Audio.StartsAtStereo | src/client.rs:1205-1214 | a buffer never resized holds three seconds of 48 kHz stereo |
| Audio.StereoStaysAligned | src/client.rs:1281-1288 | in every two-channel run the oldest buffered sample has an even stream index, so channels are never swapped |
| Base64Url.DecodeEncode | src/naming.rs:5-8 | decoding undoes encoding for every byte string |
| Base64Url.EncodeDecode | src/custom_server.rs:28 | the strict decoder accepts only the text the encoder prints |
| Base64Url.AsciiDashes | src/naming.rs:6 | in the text of ASCII bytes a dash stands only at positions 3 modulo 4 |
| Base64Url.EncodeLast | src/naming.rs:6 | the text of bytes ending in a closing brace ends in 9, Q or 0 |
| Base64Url.DecodeOverrun | src/custom_server.rs:28 | a complete text followed by a dash and anything at all is undecodable, or decodes to its bytes and more, the first of which is no JSON white space |
| Base64Url.FullwidthPrintsDashes | src/naming.rs:6 | the UTF-8 text of "c" and a fullwidth exclamation mark, anywhere at a multiple of three bytes, prints "--" |
| CustomServer.FindField | src/custom_server.rs:62-87 | the loop over the comma parts finds, for each field, the last part that starts with its name in any letter case |
| CustomServer.GetCustomServerFromString | src/custom_server.rs:39-108 | the loops with early return compute the first piece, or part between parentheses, that is a configuration |
| NameRoundTrip.AsciiTextHasNoSeparator | src/custom_server.rs:89-93 | the reversed text of ASCII bytes contains neither "--" nor "-licensed-" |
| NameRoundTrip.AsciiTokenIsSafe | src/naming.rs:5-8 | a configuration with ASCII JSON prints as text that no replacement or split can cut, alone or with its neighbours |
| NameRoundTrip.TokenIsFramed | src/naming.rs:5-8 | every printed configuration begins and ends with characters that form no separator with what surrounds it |
| NameRoundTrip.NameReadsBack | src/custom_server.rs:39-108 | prefix, any of the four separators, token, blanks, any tail in parentheses or behind "--", and extension parse back to exactly the configuration, whenever the separator stays recognisable after the prefix |
| NameRoundTrip.AsciiNameReadsBack | src/custom_server.rs:89-106 | in particular for every configuration with ASCII JSON |
| NameRoundTrip.AnyNameYields | src/custom_server.rs:39-108 | for every configuration, with or without separators in its token: the parser answers the first piece of the token, as replacements and split leave it, that is a configuration |
| NameRoundTrip.PieceIsPart | src/custom_server.rs:89-93 | replacements and split make no new text: every piece is a part of the token, the first one behind the remains of a separator |
| NameRoundTrip.NameReadsBackIff | src/custom_server.rs:89-106 | for every prefix without "host=" and "-licensed-", every separator and every tail without a configuration of its own: the parser answers the configuration if and only if the separator stays recognisable after the prefix, and otherwise none |
| NameRoundTrip.NameRecoveredIff | src/custom_server.rs:39-108 | for every configuration, every prefix without "host=" and "-licensed-", every separator and every tail without a configuration of its own: recovered if and only if the separator stays recognisable after the prefix and the token holds no separator of its own |
| NameRoundTrip.ShortestRecoveredIff | src/custom_server.rs:89-106 | the same behind a recognisable separator, for every reader to which no fewer bytes than the printed ones are that configuration |
| NameRoundTrip.GluedTokenIsRejected | src/custom_server.rs:21-37 | a token with any text that ends in a dash in front of it is no configuration |
| NameRoundTrip.OneDashTooMany | src/custom_server.rs:93 | a concrete name the parser fails on |
| NameRoundTrip.LicensedTwice | src/custom_server.rs:89-92 | two concrete names with a prefix ending in "-licensed" that the parser fails on |
| NameRoundTrip.CutNameIsLost | src/custom_server.rs:89-106 | a configuration whose token holds a separator is not recovered behind any such prefix and separator, by any reader that does not take another part of the token for it; and nothing is found if no part is read at all |
| NameRoundTrip.FullwidthNameIsLost | src/custom_server.rs:93 | for every such reader: the printed text with a fullwidth exclamation mark in its key is not recovered |
| NameRoundTrip.FullwidthReader | src/custom_server.rs:93 | there is such a reader, and its answer is none |
| NameRoundTrip.GeneratedNameIsOnePiece | src/naming.rs:21 | the name the command line prints is read as one text, prefix included |
| NameRoundTrip.GeneratedNameIsLost | src/naming.rs:21 | no configuration is found in the name the command line prints, for every token the parser cannot cut and every reader that rejects bytes after the object |
| NameRoundTrip.AsciiGeneratedNameIsLost | src/naming.rs:21 | in particular for every configuration with ASCII JSON |
| NameRoundTrip.FieldsReadBack | src/custom_server.rs:59-87 | host, key, api and relay written as named fields read back, whatever suffix follows the final comma |
| SignedNames.SignedNameReadsBack | src/custom_server.rs:28-36 | bytes that are no configuration but open as a signed message that is one give that configuration, behind every prefix and separator that stays recognisable, whatever follows |
| SignedNames.NameAnswersIff | src/custom_server.rs:21-106 | for any bytes whose text cannot be cut: the answer is a configuration if and only if the bytes are it, plain or signed |
| SignedNames.UnreadableNameIsLost | src/custom_server.rs:32-36 | bytes that are none, and open as none, give none |
| SignedNames.AnyTextAnswersIff | src/custom_server.rs:89-106 | for every text, cut or not: the answer is what the first of its pieces to carry a configuration, plain or signed, carries |
| SignedNames.CutTextAnswers | src/custom_server.rs:89-106 | a signed text that holds a separator never yields what the whole says, but only what another part of it carries |
| SignedNames.TokenOfIsFramed | src/custom_server.rs:22-28 | signed messages that end in a closing brace are carried by a text that forms no separator with what is in front of it |
| SignedNames.TextCarriesIff | src/custom_server.rs:21-37 | a text is read as a configuration if and only if it is the text of bytes that are it, plain or signed |
| SignedNames.BlanksDoNotMatter | src/custom_server.rs:95 | white space around a text that is the whole name does not matter |
| SignedNames.HostAlone | src/custom_server.rs:59-87 | a name with a host and nothing else gives that host and three empty fields |
| SignedNames.FieldByPlace | src/custom_server.rs:67-81 | a field is the text after its name in the last part that starts with the name |
| SignedNames.FieldMissing | src/custom_server.rs:62-65 | and empty if there is none |
| ClipboardCodec.SizeRoundTrip | src/clipboard.rs:640-647 | an image size survives the 32-bit field exactly when it fits a sign-extended 32-bit number |
| ClipboardCodec.ItemRoundTrip | src/clipboard.rs:613-741 | an item comes back unchanged if and only if a message can carry it |
| ClipboardCodec.MultiRoundTrip | src/clipboard.rs:704-749 | a list comes back unchanged if and only if every item can be carried |
| ClipboardCodec.MessageOf | src/clipboard.rs:613-702 | a message states its item's kind and size, and its content is compressed exactly when that is shorter, PNG data never |
| ClipboardCodec.ReadingOf | src/clipboard.rs:704-749 | any message, also of another program, is read as the kind its format says; text that is not UTF-8 is no item |
| ClipboardCodec.IncompressibleSpecial | src/clipboard.rs:673-688 | a special item that does not compress arrives as its own name |
| ClipboardSync.ClipboardContext.GetFormatsFilter | src/clipboard.rs:379-408 | nothing is read from a marked clipboard unless forced, else everything but marks and empty text |
| ClipboardSync.ClipboardContext.Check | src/clipboard.rs:54-98 | a message exactly when there is something to send, which is then cached |
| ClipboardSync.ClipboardContext.Update | src/clipboard.rs:230-269 | a received update replaces the content and carries the owner's mark, after which there is nothing to send |
| ClipboardSync.OwnedIsSilent | src/clipboard.rs:262-269 | whatever the update, a clipboard with an owner's mark has nothing to send |
| ClipboardSync.RunsTerminate | src/clipboard.rs:238-269 | once users stop copying, every interleaving on every network, with any number of clipboard subscribers per machine, ends within a number of steps known at the start |
| ClipboardSync.CanGoOn | src/clipboard.rs:842-849 | a network that is not quiescent has a step without failure |
| ClipboardSync.SomeRunCompletes | src/clipboard.rs:238-269 | from every state some run without failures is complete |
| ClipboardSync.NoEcho | src/clipboard.rs:379-408 | in every run on every network everything sent or in flight is something a user put on the sender's own clipboard: no received update is passed on or returned |
| ClipboardSync.FailedDelivery | src/clipboard.rs:238-269 | a delivery that fails or has nothing readable changes no clipboard and notifies nobody |
| ClipboardSync.CopyReachesEveryone | src/clipboard.rs:53-98 | from quiescence, one copy of sendable content leads every complete run without failures to all connected machines holding the same data, whichever of their agents set it last, and no other clipboard changed |
| ClipboardItems.FilteredItems | src/clipboard.rs:379-408 | what is read: nothing from a clipboard with an owner's mark, unless forced, else exactly the non-empty text, HTML, RTF, images, spreadsheets and built-in file lists, in their order |
| ClipboardItems.SentItems | src/clipboard.rs:54-98 | what is read for sending: nothing if an owner's mark or a file list is there, else exactly the items of those kinds, in their order |
| ClipboardItems.SentIff | src/clipboard.rs:54-98 | a message is sent exactly when an item of those kinds, no mark and no file list is there |
| ClipboardItems.ItemsReachEveryone | src/clipboard.rs:53-98 | one copy leads every complete run without failures to all connected machines holding exactly the copied items of those kinds, in their order, and an owner's mark |
| ClipboardItems.WholeContentArrives | src/clipboard.rs:53-98 | content of such items alone arrives whole |
| ClipboardItems.UnreadableUpdate | src/clipboard.rs:230-236 | an update without a readable item changes nothing |
| Login.LoginConfigHandler.Initialize | src/client.rs:1833-1847 | configuration loaded, token password and tag taken over, remember set when a password is stored |
| Login.LoginConfigHandler.HandleHash | src/client.rs:3473-3552 | an accepted side switch only clears the tag; else the password is chosen in order and tagged; a new personal tag is of a password that stands in a personal entry of the user's own book |
| Login.LoginConfigHandler.ChooseGiven | src/client.rs:3502-3528 | the password there is, else the preset, and over both a shared one, with tag |
| Login.LoginConfigHandler.ChooseKept | src/client.rs:3529-3550 | while there is none: the stored one, the personal address book's, the built-in one, with tag |
| Login.LoginConfigHandler.HandleLoginFromUi | src/client.rs:3649-3675 | a typed password replaces and untags, an empty one falls back to the last and the stored one |
| Login.LoginConfigHandler.HandleLoginError | src/client.rs:3394-3401 | a missing or wrong password is forgotten, other errors keep it |
| Login.LoginConfigHandler.HandlePeerInfo | src/client.rs:2546-2600 | what is stored and what is pushed to the personal address book on connecting |
| Login.PasswordPriority | src/client.rs:3501-3550 | the password used is the first non-empty of shared, last, preset, stored, personal and built-in |
| Login.PersonalPasswordIff | src/client.rs:3591-3615 | the lookup finds a password if and only if the user is the book's and it stands with the first peer of that id in the first personal entry |
| Login.TaggedPersonalStandsInBook | src/client.rs:3591-3615 | a hash message tags a password as personal only if it stands there, and uses and tags what stands there when nothing comes before it |
| Login.TagIsHonest | src/client.rs:3480-3552 | in every session a shared password is tagged shared and equals the salted shared text, a personal one equals its tag, unless a shared password from a token gets by without a tag |
| Login.SharedStoredIff | src/client.rs:2551-2571 | for every token that any session can hand over: some session stores a shared password if and only if the token is for one, its tag is lost to a side switch or was lost before and is not replaced, and a different password is stored |
| Login.SharedPushedIff | src/client.rs:2584-2600 | some session pushes a shared password to the personal address book if and only if it gets by without a tag in the same way, over any stored password |
| Login.TokensStayAccepted | src/client.rs:2811-2821 | whatever a session does, also one that loses a tag, the token it hands over meets the premise of the two results above |
| Login.TokensStayHonest | src/client.rs:2811-2821 | the token a session hands over is honest, unless a shared password got by without a tag |
| Login.ChainSharedIff | src/client.rs:2546-2600 | both results for every session of every chain in which each session starts without a token or with one handed over by an earlier session |
| Login.LostTagIsStoredLater | src/client.rs:3488-3500 | a concrete chain: a session with a side switch stores nothing, and the next one, without a switch, stores and pushes the shared password |
| Login.RefusedIsNotStored | src/client.rs:3394-3401 | a refused password that is stored nowhere is not used, stored or pushed after any further events, until one of them gives it again |
| Login.TypedIsStoredIff | src/client.rs:2546-2600 | a typed password that leads to a connection is stored and pushed if the user wants it remembered, and else nothing is, whatever was used before and whatever other errors came between |
| Login.PersonalIsStored | src/client.rs:2551-2600 | a password of the personal address book is stored, remembered or not, and not pushed back |
| Login.NothingTyped | src/client.rs:3649-3675 | with nothing typed the last password is used, else the stored one |
| LinkPaths.ResolveLink | scripts/extract_source_archive.py:31-45 | the push-and-pop loop computes the walk along the target's parts |
| LinkPaths.RefusedIff | scripts/extract_source_archive.py:39-42 | a target is refused exactly when some prefix of its parts has more ".." than names |
| LinkPaths.NormaliseIsTheNormalForm | scripts/extract_source_archive.py:35-45 | the answer is the one path without ".." reachable by cancelling pairs in any order, and there is none exactly when it refuses |
| LinkPaths.NormaliseInStages | scripts/extract_source_archive.py:34-45 | normalising a joined path is normalising after normalising its first part |
| LinkPaths.AcceptedLinkStaysInside | scripts/extract_source_archive.py:13-20 | relative links of accepted members lead to plain relative paths when accepted |
| LinkPaths.SymbolicLinkLeads | scripts/extract_source_archive.py:31-45 | from place d/a a relative symbolic link of k times ".." and then p leads to p below the directory k levels above d, and is refused exactly when there is none |
| LinkPaths.HardLinkLeads | scripts/extract_source_archive.py:32-45 | a hard link leads to its own parts from the extraction directory, wherever it lies |
| LinkPaths.AbsoluteLinkLeads | scripts/extract_source_archive.py:32-45 | an absolute symbolic link ignores the place it lies in |
| LinkPaths.TrivialPartsDoNotMatter | scripts/extract_source_archive.py:37-38 | empty parts and "." make no difference anywhere |
| LinkPaths.StrippedIff | scripts/extract_source_archive.py:13-20 | a member is kept exactly when something is left of its name, and that is relative and has no ".." |
| ArchiveLinks.VisitLink | scripts/extract_source_archive.py:75-87 | one link is refused, deferred because its target is missing, or replaced by the content of its target, with the directories above it made |
| ArchiveLinks.Pass | scripts/extract_source_archive.py:73-87 | one pass keeps, in order, the links still without a target; without progress no target was there |
| ArchiveLinks.MaterialiseLinks | scripts/extract_source_archive.py:71-93 | ends after at most one pass per link, with every chain's content in place and exactly the directories above the links made, or the first forbidden link, or exactly the links that lead nowhere in their order |
| ArchiveLinks.LeadsIsFixpoint | scripts/extract_source_archive.py:79 | leading to a file is a fixpoint of "the target exists" |
| ArchiveLinks.LeadsIsLeast | scripts/extract_source_archive.py:79 | and the least one |
| ArchiveLinks.SucceedsIff | scripts/extract_source_archive.py:88-92 | the loop succeeds exactly when every link is allowed and lies in that least fixpoint |
| ArchiveLinks.DestinationIff | scripts/extract_source_archive.py:23-28 | relative targets are all allowed, absolute ones exactly when they lie in the extraction directory |
| ArchiveLinks.NamedFileIsCopied | scripts/extract_source_archive.py:71-93 | a relative link that names a file of the archive is never left over, and when the loop succeeds its place holds that file's content |
| ArchiveLinks.SiblingIsCopied | scripts/extract_source_archive.py:71-93 | a single link to a file next to it: the loop succeeds and adds a copy of that file and nothing else |
| ArchiveLinks.OnlyLinksChange | scripts/extract_source_archive.py:71-93 | the files of the archive stay as they are, and new ones stand only at the places of links |
| ArchiveLinks.OrderDoesNotMatter | scripts/extract_source_archive.py:71-93 | the kind of outcome, the finished tree and the set of failing links do not depend on the order of the links |
| SessionRegistry.Sessions.InsertSession | src/flutter.rs:2236-2249 | the peer entry is made if missing and holds the new UI session |
| SessionRegistry.Sessions.InsertPeerSessionId | src/flutter.rs:2258-2289 | a UI session is added to an existing peer entry only, and the valid flag of its frame is reset when it shows a single display |
| SessionRegistry.Sessions.RemoveSessionBySessionId | src/flutter.rs:2105-2126 | in whatever order entries are visited, the session goes, its entry with it when empty, and the remaining displays are sent |
| SessionRegistry.Sessions.WouldRemovePeerBySessionId | src/flutter.rs:2136-2146 | true exactly when the removal would return an entry |
| SessionRegistry.Sessions.RemainingDisplays | src/flutter.rs:2148-2179 | the loop collects the current display and everything other UI sessions render |
| SessionRegistry.Sessions.SessionSwitchDisplay | src/flutter.rs:2181-2233 | the session shows the new displays, and in order what is done: switch message and flag reset for a single display, the displays sent for capture, a refresh of each |
| SessionRegistry.PredictionIsExact | src/flutter.rs:2136-2146 | the prediction is the removal's answer |
| SessionRegistry.RemovalIsExact | src/flutter.rs:2105-2126 | a removal takes out the one session and changes no other |
| SessionRegistry.InsertionIsExact | src/flutter.rs:2236-2249 | a new UI session shows nothing and has no textures; no other changes |
| SessionRegistry.PeerInsertionIsExact | src/flutter.rs:2258-2289 | a UI session added to an existing entry shows the given displays; no other changes |
| SessionRegistry.SwitchIsExact | src/flutter.rs:2181-2187 | a switch gives the UI session the new displays and changes nothing else |
| SessionRegistry.SwitchDoes | src/flutter.rs:2181-2233 | in every reachable registry: switch message and flag reset for a single display only; the capture list is exactly the new displays and, for a desktop's single one, what others show; refreshes of exactly the new displays |
| SessionRegistry.RemovalUndoesInsertion | src/flutter.rs:2236-2249 | removing a session just added restores the registry and reports the entry exactly when the insertion made it |
| SessionRegistry.RemovalUndoesPeerInsertion | src/flutter.rs:2258-2289 | the same for a session added to an existing entry |
| SessionRegistry.RunsAreValid | src/flutter.rs:2043-2289 | every reachable registry has no entry without UI session and no session id under two peers |
| SessionRegistry.CaptureAfterRemoval | src/flutter.rs:2148-2179 | after a removal exactly the displays some remaining UI session renders are sent |
| SessionRegistry.SwitchKeepsOthersIff | src/flutter.rs:2181-2213 | in every reachable registry the capture list a switch sends holds all displays the peer's other UI sessions show exactly when it is a desktop's switch to a single display or the new displays include those |
| SessionRegistry.SwitchToTwoDropsOthers | src/flutter.rs:2210-2213 | a run of the registry after which a switch to two displays sends a capture list without the display another window shows |
| SoftRender.FlutterHandler.GetRgba | src/flutter.rs:1088-1095 | the buffer of a valid frame, nothing otherwise |
| SoftRender.FlutterHandler.NextRgba | src/flutter.rs:1098-1102 | the frame is marked as taken |
| SoftRender.FlutterHandler.UpdateUseTextureRender | src/flutter.rs:657-661 | the shared map is emptied |
| SoftRender.FlutterHandler.OfferFrame | src/flutter.rs:1200-1217 | a frame not taken yet stays; else buffers are swapped and the frame becomes valid |
| SoftRender.FlutterHandler.TellSessions | src/flutter.rs:1219-1235 | in whatever order they are visited, exactly the single-display UI sessions with an open stream (and the display, if there are several) are told |
| SoftRender.FlutterHandler.AnnounceFrame | src/flutter.rs:1219-1235 | who was told is noted, and whether anyone was |
| SoftRender.FlutterHandler.OnRgbaSoftRender | src/flutter.rs:1190-1248 | the sections of the function, one after the other |
| SoftRender.WholeOfferMeaning | src/flutter.rs:1190-1248 | undisturbed, the new frame is exposed exactly when the last was taken and someone could be told |
| SoftRender.NextFrameGetsThrough | src/flutter.rs:1098-1102 | the UI's call hides the last frame and lets what the producer has decoded through |
| SoftRender.SeveralAreTold | src/flutter.rs:1219-1235 | of several UI sessions exactly those with an open stream that show this display alone are told to take the whole offer |
| SoftRender.LoneIsTold | src/flutter.rs:1219-1235 | a lone UI session is told if and only if its stream is open and it shows one display or none |
| SoftRender.RunsKeepInv | src/flutter.rs:1190-1248 | in every interleaving no buffer is in two places, a valid frame of an idle producer has been announced to some UI session, and while a producer is at work nobody has been told of its frame |
| SoftRender.ExposureIsStable | src/flutter.rs:1088-1095 | wherever the producer stands, the bytes `get_rgba` hands out stay the same in every interleaving until the UI asks for the next frame, the frame is taken back or the map is cleared |
| SoftRender.HandedOutIsStable | src/flutter.rs:1088-1095 | a buffer handed out keeps its bytes, even after its frame is taken back, until the producer's next offer or a clearing |
| SoftRender.OverwrittenIff | src/flutter.rs:1088-1248 | in every reachable state the bytes handed out may be overwritten before the UI asks for the next frame, with no clearing, if and only if no UI session has been told of the frame |
| SoftRender.FirstFrameMayBeOverwritten | src/flutter.rs:1211-1248 | a concrete reachable state in which they may: a first frame with no UI session |
| SoftRender.AnnouncedFrameIsStable | src/flutter.rs:243-248 | an announced frame of an idle producer moreover cannot be taken back: only the UI's call for the next frame or a clearing ends it, and who was told stays the same |
| SoftRender.BuffersAreConserved | src/flutter.rs:1200-1217 | a step adds the one empty buffer of a display's first frame, drops the map's buffers on clearing, and otherwise only moves buffers |
| PortForward.ConnectAndLogin | src/port_forward.rs:134-204 | the login loop and its flush perform a run of the connection, ending forwarding, closed or still waiting |
| PortForward.RunForward | src/port_forward.rs:207-230 | the forwarding loop continues that run; with successful sends the peer has all that was read |
| PortForward.OrderIsPreserved | src/port_forward.rs:199-228 | in every run the raw bytes sent are a prefix of the bytes read, all of them between turns, if and only if no send failed; messages never follow raw bytes |
| PortForward.NothingBeforeLogin | src/port_forward.rs:134-204 | no run sends a local byte before the peer has confirmed the login |
| PortForward.RunIsAccounted | src/port_forward.rs:134-230 | every run has sent exactly the replies and the user's messages, in order, and counted all that was read and heard; it is closed exactly when refused or ended, and logging in exactly until then or the confirmation |
| PortForward.LoginIsConfirmed | src/port_forward.rs:160-204 | on the confirmation forwarding starts at once if nothing was read, else all of it is sent first |
| Throttle.ThrottledInterval.PollTick | src/common.rs:2090-2105 | an inner tick is passed on exactly when the next one is due, which then moves |
| Throttle.ThrottledInterval.PollAll | src/common.rs:2085-2105 | the ticks of a run of polls |
| Throttle.PairwiseApart | src/common.rs:2090-2105 | any two ticks are as many minimum intervals apart as their numbers differ |
| Throttle.TicksAreApart | src/common.rs:2090-2105 | consecutive ticks are at least the minimum interval apart, whatever the clock does |
| Throttle.ThrottleBound | src/common.rs:2090-2105 | a stretch of time holds at most its length over the minimum interval, plus one, ticks |
| Throttle.NothingSwallowedIff | src/common.rs:2090-2105 | every inner tick is passed on if and only if inner ticks are themselves that far apart |
| PunchUdp.BackoffBounds | src/common.rs:2538-2560 | intervals never shrink and stay in 20 to 200 ms |
| PunchUdp.PunchUdp | src/common.rs:2534-2580 | the loop's outcome and packet count |
| PunchUdp.RunningIff | src/common.rs:2548-2580 | the loop goes on exactly while no timer is past the limit, no error occurs and nothing counts as received |
| PunchUdp.OutcomeIsFirstEnd | src/common.rs:2548-2580 | its outcome is that of the first turn that ends it, and nothing is sent from then on |
| PunchUdp.SleepBoundsPackets | src/common.rs:2548-2567 | as long as no sleep ends early at most 104 packets are sent, however readings lie apart |
| PunchUdp.AtMost104 | src/common.rs:2546-2567 | with one clock reading a turn and coincident start readings at most 104 packets are sent |
| PunchUdp.Exactly104 | src/common.rs:2546-2567 | and some run, with no sleep that ends early, sends 104 |
| PunchUdp.PacketBound | src/common.rs:2543-2567 | for any sleeps and non-decreasing readings the packets are at most a maximum given by the head start of the first packet and the time between the two looks at the clock in a turn |
| PunchUdp.PacketBoundIsReached | src/common.rs:2543-2567 | for every head start and every such time some run sends exactly that maximum |
| PunchUdp.MoreThan104Iff | src/common.rs:2551-2556 | with coincident start readings some run sends a 105th packet if and only if 12 ms may pass between the two looks of a turn |
| PunchUdp.OneMoreThan104 | src/common.rs:2551-2556 | a concrete run of 105 packets |
| OnlineStates.SplitByState | src/client.rs:4155-4167 | the loop picks the online and the offline ids; together they are a permutation of all |
| OnlineStates.PickInOrder | src/client.rs:4158-4166 | each list keeps the order of the ids |
| OnlineStates.RecoversPackedStates | src/client.rs:4158-4166 | from a bitmap packed highest bit first, for any number of ids, exactly the online set is recovered |

## Left out

- Integer overflow of machine words: counters, sizes and times are unbounded, except for the image sizes of clipboard messages.
- File-name prefixes that hold a whole "-licensed-" of their own, which the parser takes for a further separator.
- Lower-casing outside ASCII, and names whose length it changes; white space follows the Unicode property.
- `resize` to a rate of zero: the ring library cannot make an empty ring, so runs do not contain it.
- The comparison of a drop with occupancies recorded before a resize: the ring they describe is gone.
- Audio.AudioBuffer.FillOutput: does not model the wait for more samples; the pop counts what is there after it.
- Clipboards of peers that understand single text items only, the cached message sent on connecting, and file copy and paste.
- ClipboardSync.CopyReachesEveryone: assumes sends and clipboard writes that succeed; the termination and no-echo results do not.
- Login.LoginConfigHandler.HandleHash: writes the tag once at the end, and leaves out the login message itself; the peer's hash message is assumed to come first and its salt not to change.
- Changes of the stored peer configuration by other processes.
- NameRoundTrip.NameRecoveredIff: supposes a reader that takes no other part of the token for the same configuration, which depends on the JSON reader; what it finds instead in a cut token is said by AnyNameYields.
- A machine connected to itself, and clipboard listeners that come or go while messages are in flight.
- Errors while reading the system clipboard, which show up as notifications that send nothing.
- The time of the last evaluation is a field of the audio buffer here; in the program all buffers share it.
- The question to the user before an unencrypted connection, and the accept loop around forwarded connections.
- Links to directories, for which copies depend on the order; archives in which a link lies over or below a file; file modes.
- Overlapping calls into the session registry: removal takes its lock twice, and the results are for calls that do not overlap. Casts between signed and unsigned display numbers.
- SessionRegistry.Sessions.InsertPeerSessionId: does not model the renderer's own copy of the flag that tells whether the peer serves several UI sessions.
- Video decoding, texture rendering and plugin hooks around the frame hand-over.
- PortForward.OrderIsPreserved: a failed send is taken to transmit nothing.
- The rounding of nine tenths of the period in the throttled interval, which is integer division here.
- Sockets, rendezvous, relay and encryption; the user interface, packaging scripts and platform glue: calls into libraries without logic of their own.
- `str2color`, which hashes a text into a colour, and the other single-expression helpers of the source files named above.
