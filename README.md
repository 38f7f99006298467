# crazy-7s game logic in Dafny

A model of the deterministic core of crazy-7s, a peer-to-peer card game in which every
peer applies the same state transitions to the packets it receives. The model covers:

- the card and colour byte codecs and the play rule (`CardCodec`, card.dfy);
- the 100-card default deck, drawing from its end and its byte order (`DeckState`, deck.dfy);
- the turn state, its seat order and direction, and the opponents' card counts (`TurnInfo`, info.dfy);
- the one-byte event kinds and the Start/Restart packet layout (`Protocol`, protocol.dfy);
- the packet handlers, dealing, card effects and the local broadcast actions (`Network`, network.dfy);
- drawing a card and taking back the discard pile (`Board`, board.dfy);
- playing a card from the hand (`Hand`, hand.dfy);
- picking the colour of a wild (`WildScreen`, wild.dfy);
- the string, `i32` and `bool` text codecs of the settings store (`Serialize`, serialize.dfy);
- the `key = value` settings file and its map (`NativeStore`, native.dfy);
- the 4-digit room code buffer of the join screen (`JoinMenu`, join.dfy);
- the username buffer of the settings screen (`SettingsMenu`, settings.dfy).

Each Bevy resource the source updates in place is a class: `Deck`, `DiscardCards`,
`MainPlayer`, `GameInfo`, `Opponents`, `PeerNames`, `FileStore`, `Code` and `Username`.
Each handler is a method over those objects. Its contract gives the new state as a
function of the old state. The lemmas beside it prove what those functions mean.

Several things are parameters:

- The socket's own id is `localId: Option<PeerId>`.
- Outgoing packets are returned as byte sequences.
- Events meant for Bevy's other systems (spawn requests, win announcements, screen and
  menu changes) are returned as a `seq<UiEvent>`.
- The random source of `shuffle` is a function `rng: nat -> nat`.
- UTF-8 lossy decoding of names is a function `utf8: seq<byte> -> string`.
- `char::is_alphanumeric` is a function `isAlphanumeric: char -> bool`.

A Rust panic is modelled in one of two ways:

- In a pure codec it becomes `None`: colour decoding, string deserialization and the
  `i32`/`bool` parses.
- In a handler it becomes a precondition. `ReceivePacket` checks the preconditions of the
  handler it calls and reports `Panicked` when one fails.

Debug-build integer overflow counts as a panic. The one intended truncation,
`order.len() as u8`, is written out as `% 256`.

Two facts about the code that the model keeps:

- `default_cards` builds 100 cards: no coloured sevens, and four wild sevens.
- `initialize_game_start` draws the opening discard card from the end of the deck.

## Model

| member | source | states |
|---|---|---|
| CardCodec.ColorToByte | src/card.rs:58-68 | colours map into 0..=4, and only Wild maps to 4 |
| CardCodec.ColorFromByte | src/card.rs:70-81 | a byte decodes iff it is at most 4 (a larger byte panics), and it decodes to the colour that encodes to it |
| CardCodec.ColorByteBijection | src/card.rs:58-81 | decoding inverts encoding, and encoding is injective |
| CardCodec.Encode | src/card.rs:209-235 | a canonical card encodes to a byte from 104 up iff it is wild, so wild and coloured bytes never collide; the byte layout is stated by `EncodeRanges` |
| CardCodec.Decode | src/card.rs:238-277 | every byte decodes without a panic to a card that encodes without overflow |
| CardCodec.EncodeRanges | src/card.rs:209-235 | a coloured card encodes to colour*13 + value + (iteration-1)*52, with iteration 1 in 0..=51 and iteration 2 in 52..=103; a wild card encodes to 104 + iteration |
| CardCodec.EncodeIgnoresWildValue | src/card.rs:217 | a wild card's byte does not depend on its value field |
| CardCodec.DecodeShape | src/card.rs:238-277 | a byte from 104 up is the wild seven of iteration b-104; a lower byte has iteration 1 up to 51 and 2 above, colour (b mod 52)/13 and value (b mod 52)%13 |
| CardCodec.EncodeDecode | src/card.rs:209-277 | encode(decode(b)) == b for every byte, and the decoded card is canonical |
| CardCodec.DecodeEncode | src/card.rs:209-277 | decode(encode(c)) == c exactly for the canonical cards |
| CardCodec.EncodeInjective | src/card.rs:209-235 | two canonical cards with the same byte are equal |
| CardCodec.CanPlayOn | src/card.rs:125-128 | `can_play_on` as a predicate; `PlayRule` states its cases |
| CardCodec.PlayRule | src/card.rs:125-128 | an uncoloured wild on top blocks every card; otherwise a card is playable iff colours match, values match or it is wild |
| CardCodec.PlayRuleSymmetric | src/card.rs:125-128 | between coloured cards the rule is symmetric |
| DeckState.DefaultCards | src/deck.rs:14-46 | the nested push loops build exactly the standard deck sequence |
| DeckState.PushSuit | src/deck.rs:23-39 | the inner loop appends iterations 1 and 2 of each non-seven value, in order |
| DeckState.PushSuits | src/deck.rs:17-40 | the outer loop appends one block per colour, in order |
| DeckState.StandardDeckContents | src/deck.rs:14-46 | the default deck holds 100 distinct cards: iterations 1 and 2 of each of 12 values in 4 colours, plus wild sevens of iterations 0..3 |
| DeckState.StandardDeckRoundTrip | src/card.rs:327-336 | every card of the default deck is canonical and decodes back to itself after encoding |
| DeckState.Deck.constructor | src/deck.rs:49-52 | `Deck::new` holds the default cards |
| DeckState.DrawCount | src/deck.rs:77-85 | `draw(n)` takes min(max(n,0), len) cards |
| DeckState.DrawSplitsPile | src/deck.rs:77-85 | `draw` never fails: it returns min(max(n,0), len) cards from the end, last card first, and the rest of the pile is the untouched prefix |
| DeckState.DrawOne | src/deck.rs:77-85 | drawing one card takes the last card, or nothing from an empty pile |
| DeckState.Deck.Draw | src/deck.rs:77-85 | the popping loop leaves the remaining prefix and returns exactly the drawn cards |
| DeckState.Deck.GetCardOrder | src/deck.rs:67-69 | one byte per card in the same order, and for canonical cards the bytes decode back to the cards |
| DeckState.Deck.LoadFrom | src/deck.rs:72-74 | the cards become the decoded bytes |
| DeckState.CardOrderRoundTrip | src/deck.rs:67-74 | `get_card_order` after `load_from` returns the same bytes, and `load_from(get_card_order())` restores canonical cards |
| DeckState.Deck.Shuffle | src/deck.rs:60-64 | shuffling only permutes the cards |
| DeckState.Deck.IsEmpty | src/deck.rs:88-90 | true iff the deck has no cards |
| DeckState.MainPlayer.Reset | src/deck.rs:114-116 | the hand is empty afterwards |
| TurnInfo.GameInfo.constructor | src/info.rs:19-27 | no current player, empty order, clockwise |
| TurnInfo.GameInfo.Reset | src/info.rs:30-34 | no current player, empty order, clockwise |
| TurnInfo.GameInfo.AdvanceTurn | src/info.rs:37-55 | the new current player is the next seat in the direction, is in the order and is returned; None stays None; order and direction are kept |
| TurnInfo.NextPlayer | src/info.rs:38-52 | there is a next player iff there is a current one, and it has a seat |
| TurnInfo.NextPlayerAt | src/info.rs:40-48 | clockwise moves seat i to (i+1) mod n, counter-clockwise to (i+n-1) mod n |
| TurnInfo.NextPlayerUndo | src/info.rs:37-62 | one seat forward and one seat back in the flipped direction returns to the same player |
| TurnInfo.GameInfo.SwapDirection | src/info.rs:57-62 | the direction flips; current player and order are kept |
| TurnInfo.FlipInvolution | src/info.rs:57-62 | flipping changes the direction, and flipping twice restores it |
| TurnInfo.FindOpponent | src/network.rs:233-238 | the index of the first opponent with the id, or None when no opponent has it |
| TurnInfo.Opponents.AddCards | src/network.rs:233-238 | the search loop adds the cards to the first opponent with the id |
| TurnInfo.AddCountEffect | src/network.rs:233-238 | adding keeps ids, names and length, and raises the total by k iff the id is present |
| TurnInfo.Opponents.RemoveCard | src/network.rs:256-265 | the first opponent with the id loses one card, and it is the winner iff its count reaches 0 |
| TurnInfo.RemoveCountEffect | src/network.rs:256-265 | removing lowers the total by one iff the id is present |
| TurnInfo.Opponents.ResetCounts | src/network.rs:324-326 | every opponent's count becomes 5, and nothing else changes |
| Protocol.EventToByte | src/network.rs:43-54 | event bytes lie in 0..=5 |
| Protocol.EventFromByte | src/network.rs:60-74 | a byte decodes iff it is at most 5, to the kind that encodes to it, and otherwise fails with InvalidByte |
| Protocol.EventByteBijection | src/network.rs:43-74 | Start=0 … Wild=5 is a bijection that `try_from` inverts |
| Protocol.BuildStartPacket | src/network.rs:480-495 | the packet is the kind byte, the count byte `len as u8`, 16 bytes per id and the deck bytes |
| Protocol.ParseStartIds | src/network.rs:175-189 | the id loop fails iff the bytes run out, and otherwise returns the ids and the position of the deck bytes |
| Protocol.ParsedOrder | src/network.rs:175-189 | the k-th id read is bytes 2+16k .. 2+16k+16 |
| Protocol.IdBytesAt | src/network.rs:490-493 | the k-th id sits at bytes 16k .. 16k+16 of the id block |
| Protocol.StartPacketRoundTrip | src/network.rs:175-216 | parsing a built packet with fewer than 256 seats recovers its kind, its order and its deck bytes |
| Protocol.StartPacketCountWraps | src/network.rs:490 | with 256 seats or more the count byte wraps, so a parser reads `len mod 256` ids |
| Protocol.PacketsDecode | src/network.rs:525-616 | the Draw, Play, Wild and Name packets open with their kind byte and carry the card, colour or name |
| Network.PeerNames.Insert | src/network.rs:280-284 | a Name event stores the peer's latest name |
| Network.PeerNames.Remove | src/network.rs:137-141 | a disconnected peer's name is forgotten |
| Network.OpponentsFrom | src/network.rs:193-208 | the opponents are the order without the local id, in order, each with 5 cards and the known name or "Unknown" |
| Network.OpponentsFromSeats | src/network.rs:193-208 | with distinct seats there is one opponent per other seat |
| Network.InitializeGameStart | src/network.rs:343-393 | the hand is the slice at 5*seat from the front, 5n cards go off the end, the discard cards are drawn, and the spawn events and screen change follow |
| Network.DrawOpeningDiscards | src/network.rs:366-374 | the last deck card goes on the discard pile, preceded by itself when it is an uncoloured wild and then the card beneath is drawn too |
| Network.DealtHand | src/network.rs:354-361 | the hand holds five cards |
| Network.DealSplitsDeck | src/network.rs:360-374 | dealing leaves a prefix of the deck; the discard cards are the cards just below the thrown-away ones; nothing is created or lost |
| Network.DealWildBeneath | src/network.rs:368-373 | a second discard card is dealt iff the first is an uncoloured wild, which then lies beneath the top |
| Network.DoubleWildBlocksPlay | src/network.rs:368-373 | for every deck and seat count: when the two cards just below the thrown-away ones are both uncoloured wilds, both are dealt to the discard pile, the top stays uncoloured and no card can be played on it |
| Network.DealHandStaysInDeck | src/network.rs:360-364 | the hand is sliced from the front and the draws come from the back, so on a deep enough deck the hand is still in the deck after dealing |
| Network.DealHandsDisjoint | src/network.rs:360 | two seats get disjoint hands from a deck of distinct cards |
| Network.DrawTwoTarget | src/network.rs:417-455 | only a DrawTwo targets anyone; nobody when the next player played it; otherwise the local player iff it is next, else that opponent |
| Network.EffectTurn | src/network.rs:408-416 | the turn state after the effect keeps a seated current player, and only Reverse flips the direction |
| Network.SkipPassesOver | src/network.rs:408-411 | clockwise, a Skip played at seat i hands the turn to seat i+2, and values other than Skip and Reverse do not move the turn |
| Network.ReverseTurnsBack | src/network.rs:412-416 | a Reverse flips the direction and hands the turn to the seat before its player |
| Network.TwoPlayerReverse | src/network.rs:412-416 | with two players a Reverse hands the turn to the other player |
| Network.DrawTwoMovesCards | src/network.rs:417-455 | the deck shrinks by min(2, len); cards drawn for us land in our hand, so none is lost; an opponent's count rises by 2 |
| Network.SpawnAll | src/network.rs:382-388 | one spawn request per card, in order |
| Network.GiveTwo | src/network.rs:417-455 | the DrawTwo branch moves the cards to the target chosen by DrawTwoTarget |
| Network.HandleCardEffect | src/network.rs:398-458 | Skip advances once more, Reverse flips and advances twice, DrawTwo gives its two cards, and other values change nothing |
| Network.ReceiveDraw | src/network.rs:229-241 | the deck shrinks by at most one card, the sender's count rises by one, and the turn advances |
| Network.TakeOpponentCard | src/network.rs:243-265 | the card goes on the discard pile and is spawned there, the sender's count drops by one, and a Win is sent when it reaches 0 |
| Network.ReceivePlay | src/network.rs:242-279 | the decoded card is discarded, the sender loses a card, the turn advances and the card's effect applies |
| Network.ReceiveWild | src/network.rs:285-302 | a copy of the top discard card in the received colour goes on top; earlier cards are unchanged |
| Network.ResetGameState | src/network.rs:308-340 | empty hand and discard pile, fresh turn state, every opponent back to 5 cards, board shown |
| Network.ReceiveStart | src/network.rs:158-228 | a restart resets first; a packet too short for its ids ends the handling, leaving a Start packet's state as it was and a Restart packet's reset in place; otherwise opponents, order, current player, deck and deal are set up |
| Network.SetUpGame | src/network.rs:191-227 | the order's first seat plays first; opponents, deck and deal follow from the packet |
| Network.ReceivePacket | src/network.rs:151-303 | a packet is handled, dropped (empty, bad kind, short Start) or panics, and a panicking packet changes nothing; every other packet has exactly the effect and events of its kind's handler (`ReceiveStart`, `ReceiveDraw`, `ReceivePlay`, a name insert, `ReceiveWild`), and the objects that handler does not touch are unchanged |
| Network.ReceiveMessages | src/network.rs:151-156 | packets are handled in order until one is not handled, and the rest of the frame is lost |
| Network.HandleStartGame | src/network.rs:461-516 | the host sets order and current player, broadcasts the packet of its deck order, and deals from its own deck |
| Network.LockstepStart | src/network.rs:175-228 | a peer that parses the host's packet gets the host's order and deck, so it deals exactly when the host does |
| Network.HandleDrawCard | src/network.rs:519-531 | a Draw packet is broadcast and the turn advances |
| Network.HandlePlayCard | src/network.rs:534-568 | the Play packet is broadcast, the turn advances, the effect applies with us as its player, and our Win is announced once the hand is empty |
| Network.HandleRestartGame | src/network.rs:571-606 | the game state is reset and the next game starts with the order rotated left by one |
| Network.RestartRotatesSeats | src/network.rs:587-589 | after rotation the former second seat plays first and the former first seat plays last |
| Network.HandleWildColor | src/network.rs:609-619 | the Wild packet carries a colour byte that decodes to the chosen colour |
| Network.PeerConnected | src/network.rs:130-136 | a new peer is sent a Name packet carrying our username |
| Board.DrawCard | src/game_ui/board.rs:118-160 | nothing happens when the top discard is an uncoloured wild, it is not our turn or the deck is empty; otherwise the deck's last card moves to the end of the hand and one draw intent is emitted |
| Board.DrawMovesOneCard | src/game_ui/board.rs:148-152 | the drawn card moves from deck to hand, and nothing is created or lost |
| Board.ShuffleDiscardPile | src/game_ui/board.rs:164-193 | nothing happens unless the deck is empty and the pile holds 2 or more cards; then the pile keeps only its top, and the deck is a permutation of the rest with sevens reset to wild |
| Board.ResetWild | src/game_ui/board.rs:185-189 | a seven becomes an uncoloured wild, and other cards keep their colour |
| Board.ReclaimKeepsCards | src/game_ui/board.rs:175-190 | the deck gets exactly the cards under the top, changed only in the colour of sevens |
| Board.ReclaimDuplicatesPlayedWild | src/game_ui/board.rs:185-189 | a recoloured wild and its played original both go back as the same uncoloured wild |
| Hand.HandleCardClick | src/game_ui/hand.rs:33-86 | nothing changes when it is not our turn or the card cannot go on the top card; otherwise the first copy leaves the hand, goes on the pile, and PlayCard is emitted, preceded by the colour prompt for a wild |
| Hand.RemoveAt | src/game_ui/hand.rs:66 | `Vec::remove` keeps the other cards in order |
| Hand.RemoveFirstCopy | src/game_ui/hand.rs:61-66 | removing the first copy takes out exactly one copy |
| Hand.PlayMovesOneCard | src/game_ui/hand.rs:61-69 | a play moves one card from hand to pile, and nothing is created or lost |
| WildScreen.ToString | src/screens/wild.rs:29-37 | the button labels "red", "yellow", "green" and "blue"; `ButtonsCoverColours` proves them distinct |
| WildScreen.ButtonColor | src/screens/wild.rs:131-136 | a button never chooses Wild |
| WildScreen.ButtonsCoverColours | src/screens/wild.rs:22-38 | each non-wild colour has exactly one button, and the labels differ |
| WildScreen.HandleAction | src/screens/wild.rs:121-155 | a copy of the top card in the chosen colour goes on top, and the choice and the return to the board are emitted |
| WildScreen.WildChoiceReachesPeers | src/screens/wild.rs:150 | the colour byte of the Wild packet decodes to the chosen colour |
| Serialize.SerializeString | src/storage/serialize.rs:14-30 | `String` and `&str` serialize to the input between two double quotes |
| Serialize.DeserializeString | src/storage/serialize.rs:20-24 | the text minus its first and last character; a text shorter than 2 bytes, or whose end characters are not single bytes, panics |
| Serialize.StringRoundTrip | src/storage/serialize.rs:14-30 | unquoting a quoted text gives it back |
| Serialize.NatToDecimal | src/storage/serialize.rs:33-37 | the decimal form has digits only, no leading zero, and the number as its value |
| Serialize.SerializeI32 | src/storage/serialize.rs:33-37 | the text is non-empty, starts with '-' iff the number is negative, and is otherwise decimal digits |
| Serialize.I32RoundTrip | src/storage/serialize.rs:33-43 | `parse` inverts `to_string` for every i32 |
| Serialize.I32RejectsNonDigits | src/storage/serialize.rs:39-43 | a non-digit after the first character makes the parse fail |
| Serialize.SerializeBool | src/storage/serialize.rs:59-63 | the text parses back to the same boolean |
| Serialize.DeserializeBool | src/storage/serialize.rs:65-69 | the parse succeeds iff the text is "true" or "false" |
| Serialize.BoolRoundTrip | src/storage/serialize.rs:59-69 | bools round-trip, and every parsed text is the serialized form of its result |
| Serialize.ValueRoundTrip | src/storage/serialize.rs:13-69 | every stored string, i32 or bool reads back as itself with its own kind |
| NativeStore.FileStore.constructor | src/storage/native.rs:26-36 | the map is what the file's lines build; a line without `=` panics |
| NativeStore.ParsedMapKeys | src/storage/native.rs:29-34 | the keys are exactly the lines' keys (the trimmed text before the first `=`) |
| NativeStore.LastLineWins | src/storage/native.rs:29-33 | a key's value is the trimmed text between the first `=` and the next `=` or the end of the line, taken from the last line with that key |
| NativeStore.EntryLineParses | src/storage/native.rs:29-34 | a written line reads back as its key and value |
| NativeStore.RenderedParses | src/storage/native.rs:29-48 | reading what `write` produced, in any visiting order, recovers the map when keys and values hold no `=`, no line break and no edge whitespace |
| NativeStore.FileStore.Write | src/storage/native.rs:40-49 | the file is one `key = value` line per entry in some order, and reading it recovers the map for clean entries |
| NativeStore.FileStore.Get | src/storage/native.rs:61-65 | `get` fails iff the key is missing; otherwise it returns the stored text deserialized as the kind asked for |
| NativeStore.Lookup | src/storage/native.rs:61-65 | `get` fails iff the key is missing and otherwise returns a value of the kind asked for |
| NativeStore.LookupAfterInsert | src/storage/native.rs:54-65 | after `set`, `get` of the key returns the value and other keys read as before |
| NativeStore.FileStore.Set | src/storage/native.rs:54-59 | the serialized value replaces any old one, `get` returns it, and the rewritten file reads back as the map |
| JoinMenu.Code.UpdateCode | src/menu/join.rs:119-135 | only ASCII digits are appended, only while the code is shorter than 4, and then backspace removes the last character |
| JoinMenu.CodeAfterBounded | src/menu/join.rs:125-134 | the code stays at most 4 characters, all digits; an empty code stays empty without digits; without backspace the old code is a prefix |
| JoinMenu.KeptStep | src/menu/join.rs:125-129 | one more character is appended iff it is a digit and there is room |
| JoinMenu.Code.Display | src/menu/join.rs:138-147 | the code followed by " _" per missing digit, so its length is len + 2(4-len) |
| JoinMenu.Code.JoinEnabled | src/menu/join.rs:150-153 | the Join button is enabled iff the code has 4 characters |
| JoinMenu.FourDigitsParse | src/menu/join.rs:173 | a 4-digit code always parses as a u16 below 10000 |
| JoinMenu.Code.HandleAction | src/menu/join.rs:156-180 | Back goes to the main menu; an enabled Join joins the room with the parsed code |
| SettingsMenu.TypeChars | src/menu/settings.rs:100-104 | only alphanumeric, `_` and space characters are appended, in order, all of them unless the name reaches 15 bytes, each while it is under 15 bytes |
| SettingsMenu.TypingStep | src/menu/settings.rs:101-103 | one more typed character keeps that description |
| SettingsMenu.Username.UpdateName | src/menu/settings.rs:91-106 | backspace pops one character (an empty name stays empty) and appends nothing; otherwise the typing loop runs |
| SettingsMenu.NameStaysShort | src/menu/settings.rs:101 | a name grows past 15 bytes by at most one character, so it stays within 18 bytes |
| SettingsMenu.Username.HandleAction | src/menu/settings.rs:115-134 | on a left-button release the main menu is requested and the name is stored quoted under `username` and reads back as itself; without a release nothing changes and no event is raised |

## Left out

- Rendering, sprites, animation, hover hit-testing and button geometry: f32 layout and Bevy UI.
- Bevy state and plugin wiring, and screen and menu drawing. Screen and menu changes appear only as `UiEvent`s.
- Socket plumbing (`try_update_peers`, `send`, `receive`, `connected_peers`): the packets to send are returned, and the received batch is a parameter.
- `socket.id()` is the parameter `localId`.
- Random choices: the shuffle's random source is a parameter, the lobby's order shuffle is not modelled, and room codes and default usernames are generated elsewhere.
- UTF-8 lossy decoding of Name payloads is a parameter. So is `char::is_alphanumeric`, which depends on Unicode tables.
- The file system and web storage: creating, reading and writing the settings file; `storage/wasm.rs`; the `Storage` wrapper. The file's text is the string field `FileStore.file`.
- f32 `Serialize`/`Deserialize`: floating point.
- `update_name_display` copies the name into the text unchanged, so there is nothing to state about it.
- One Bevy event or one button interaction per handler call. The loops over several events in one frame are not modelled, except for the packet loop (`ReceiveMessages`).
- Network.ReceiveMessages: states only how far the frame gets. The combined effect of the handled packets is not stated as one function of the old state; each packet's effect is `ReceivePacket`'s contract for it.
- NativeStore.FileStore.Write: the HashMap's iteration order is an arbitrary visiting order; the contract holds for every such order.
- JoinMenu.FourDigitsParse: `u16::from_str` is proved to succeed for four digits only, the one case the Join button allows. Its other outcomes are modelled (`ParseU16`) but not characterised.
- Serialize.ParseI32: its contract says only that a parsed text is not empty. It accepts an optional sign followed by ASCII digits with the value in range, as `str::parse::<i32>` does. Of its error cases, only a non-digit after the first character is proved (`I32RejectsNonDigits`).
- Behaviour kept as written, with a lemma showing it:
  - the dealt hand stays in the deck (`DealHandStaysInDeck`);
  - two wilds dealt to the discard pile block play (`DoubleWildBlocksPlay`);
  - a reclaimed pile puts a played wild back twice (`ReclaimDuplicatesPlayedWild`).
- A restart deals from the host's deck as it stands, without rebuilding it (`HandleStartGame` on the current `deck.cards`); the model keeps this.
