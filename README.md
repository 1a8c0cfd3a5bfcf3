# gopoker in Dafny

A model of the deterministic core of gopoker, a Texas hold'em server written in Go with a
terminal client and a React web client. One Dafny module stands for one source file:

- **Engine (`internal/poker`)**: `PokerCard`, `PokerDeck`, `PokerPlayer`, `PokerPot`,
  `PokerTable`, `PokerShowdown` and `PokerUtil`. They cover the circular player list, player
  resets, pots and side pots, card naming, deck building and popping, seat management, the
  community-card state machine, dealer and blind rotation, and tie-breaking.
  - The `Chips` type is a uint64. Every wrapping addition, subtraction and multiplication is
    written out with `Common.AddWrap64`, `SubWrap64` and `MulWrap64`.
  - Objects that the Go code updates in place are classes: `Card`, `Hole`, `Player`, `PlayerList` (a ring of
    `PlayerNode`s with `Head` and `Len`), `Pot`, `SidePot`, `SidePotArray`, `SidePots`,
    `Deck` (an array of 52 cards with a position) and `Table`.
  - A Go panic is a returned flag or an `Outcome`.
- **Player states (`internal/playerState`)**: `PlayerState`, the nine one-bit states.
- **Protocol**:
  - `LegacyNet` covers net.go: the forty one-bit `NetAction` tags, the needs-table,
    needs-player and needs-action masks, `ClearData` and `NetActionToString`.
  - `NetUtil` covers the action-to-player-state map.
  - `NetClient` covers clients and client settings.
  - `NetRoom` covers the room-settings validator, `isLocked` and the community-state
    response map.
  - `WebProto` covers the JavaScript side of the protocol (`libgopoker.js`).
- **Web client**: `SeatArray` is the seat array of `Tablenew.jsx`, with its updaters given as
  functions from old array to new array. `PlayerInput` is the bet input and the action
  buttons of `Player.jsx`. `ServerConfig` is `serverConfig.js`, with the environment
  variables as parameters.
- **Legacy root package**: `LegacyPoker` (the older single-file engine's list, deck, seats and
  helpers), `LegacyUtil` and `LegacyMain` (address normalisation and the seat-count check).
  These modules are kept apart from the newer engine; lemmas such as
  `LegacyPoker.DeckOrderAgrees` compare the two explicitly.
- **Shared definitions**: `Common` holds the integer widths, `Option`, `Error` and the
  wrapping arithmetic shared by all modules.

Foreign helpers are function parameters, whose properties are requirements:
`sort.Slice`, `uniseg.StringWidth`, `printer.Sprintf`, BigInt's `toLocaleString` and hand
evaluation. Random choices (the shuffle's swaps, `RandString`) are arbitrary choices, so
every property stated about them holds for every outcome.

The model follows the code everywhere. It takes JavaScript's lock names
("none" for no lock) as they are, even though the server calls the same lock "no lock"
(`WebProto.LockNamesAgainstGo`).

Where the code does something its authors evidently did not intend (see "## Findings"), the
operation itself models the code as written. A corrected member stands beside it, and the
intended property is proved about that member.

## Model

| member | source | states |
|---|---|---|
| Common.AddWrap64 | internal/poker/poker.go:28 | `Chips` addition on uint64: the exact sum below 2^64, the sum less 2^64 at or above it |
| Common.SubWrap64 | internal/poker/poker.go:28 | `Chips` subtraction on uint64: the exact difference when it is not negative, otherwise the difference plus 2^64 (the wrap) |
| Common.MulWrap64 | internal/poker/poker.go:1623 | uint64 multiplication: the exact product below 2^64; doubling a value of 2^63 or more gives twice it less 2^64 |
| Common.ByteLen | internal/net/client.go:12 | Go's `len` of a string counts UTF-8 bytes: at least one and at most four per character |
| Common.ByteLenAppend | internal/net/client.go:12 | the byte length of a concatenation is the sum of the byte lengths |
| PlayerState.StatesAreSingleBits | internal/playerState/playerState.go:4-14 | the nine states are `1 << iota` for iota 0..8, strictly increasing, hence distinct |
| PlayerState.ZeroIsNotAState | internal/playerState/playerState.go:4-14 | 0 is none of the declared states |
| PokerUtil.AbsUInt64 | internal/poker/util.go:19-25 | the result is \|x − y\|; the guarded subtraction never wraps |
| PokerUtil.AbsChips | internal/poker/util.go:27-33 | the result is \|x − y\| on `Chips` |
| PokerUtil.MinUInt64 | internal/poker/util.go:35-41 | the result is one of the arguments and at most both |
| PokerUtil.MinChips | internal/poker/util.go:43-49 | the result is one of the arguments and at most both |
| PokerUtil.MaxUInt64 | internal/poker/util.go:51-57 | the result is one of the arguments and at least both |
| PokerUtil.MaxChips | internal/poker/util.go:59-65 | the result is one of the arguments and at least both |
| PokerUtil.MaxInt | internal/poker/util.go:67-73 | the result is one of the arguments and at least both |
| PokerUtil.PlayerMapToArr | internal/poker/util.go:75-87 | the slice has one entry per key, each key visited once in some order, holding exactly the map's values; an empty map gives an empty slice |
| PokerUtil.Panic.constructor | internal/poker/util.go:88-91 | a new Panic has not panicked, Go's zero value |
| PokerUtil.Panic.Raise | internal/poker/util.go:94-97 | `panicked` is set, then the message is the panic value |
| PokerUtil.Panic.IfNoPanic | internal/poker/util.go:99-103 | the deferred change happens exactly when no panic was raised |
| PokerUtil.PanicRetToError | internal/poker/util.go:105-118 | a string panic becomes an error with that text, an error passes through unchanged, anything else is "unknown panic" |
| PokerUtil.RandString | internal/poker/util.go:133-143 | n characters, each from the 62-letter alphabet; a negative n makes `make` panic |
| PokerUtil.Spaces | internal/poker/util.go:152-156 | `count` spaces, and none for a count that is not positive |
| PokerUtil.FillLeft | internal/poker/util.go:148-161 | `max(0, w − width(s))` spaces, then `s` |
| PokerUtil.FillRight | internal/poker/util.go:166-179 | `s`, then `max(0, w − width(s))` spaces |
| LegacyUtil.AbsUInt64 | util.go:19-25 | \|x − y\| without wrap-around |
| LegacyUtil.AbsChips | util.go:27-33 | \|x − y\| on `Chips` without wrap-around |
| LegacyUtil.MinUInt64 | util.go:35-41 | the smaller argument |
| LegacyUtil.MinChips | util.go:43-49 | the smaller argument |
| LegacyUtil.MaxUInt64 | util.go:51-57 | the larger argument |
| LegacyUtil.MaxChips | util.go:59-65 | the larger argument |
| LegacyUtil.MaxInt | util.go:67-73 | the larger argument |
| LegacyUtil.PlayerMapToArr | util.go:75-87 | the slice has one entry per key, each key visited once in some order and its entry holding that key's value, so the entries are exactly the map's values |
| LegacyUtil.Panic.constructor | util.go:89-94 | a new Panic starts uninitialised: its closures are installed only by `Init` |
| LegacyUtil.Panic.Init | util.go:96-109 | `Init` clears `panicked` and installs the two closures |
| LegacyUtil.Panic.Raise | util.go:99-102 | the installed `panic` sets `panicked`, then panics with the message |
| LegacyUtil.Panic.IfNoPanic | util.go:104-108 | the installed `ifNoPanic` runs its argument exactly when no panic was raised |
| LegacyUtil.PanicRetToError | util.go:111-124 | string gives that text, an error passes through, anything else gives "unknown panic" |
| LegacyUtil.RandString | util.go:139-149 | n characters from the 62-letter alphabet; a negative n panics |
| LegacyUtil.FillLeft | util.go:154-167 | left padding to `w` display cells |
| LegacyUtil.FillRight | util.go:172-185 | right padding to `w` display cells |
| PokerCard.Card.constructor | internal/poker/card.go:53-58 | a card with the given suit and value and empty names |
| PokerCard.Hole.constructor | internal/poker/card.go:62-68 | the zero `Hole`: no flags, suit 0, combined value 0, no cards |
| PokerCard.Hole.FillHoleInfo | internal/poker/card.go:70-86 | `IsPair` is set when the two values agree and `IsSuited` plus `Suit` when the suits agree; neither flag is ever cleared; the combined value is the uint8 sum of the two values, the plain sum below 256 and the sum less 256 from 256 on; fewer than two cards panic before anything is written |
| PokerCard.RankName | internal/poker/card.go:94-114 | a name exists exactly for the eleven ranks muck..royal flush; any other rank panics |
| PokerCard.RankNameInjective | internal/poker/card.go:94-114 | no two ranks share a name |
| PokerCard.CardsSort | internal/poker/card.go:116-122 | the result is sorted by non-decreasing `NumValue` and is a permutation of the input |
| PokerCard.Insert | internal/poker/card.go:116-122 | one insertion step of the sort: sorted, and the old cards plus the new one |
| PokerCard.ReverseCards | internal/poker/card.go:124-132 | a new slice of the same length with `reversed[j] == cards[len−1−j]`; the input is untouched |
| PokerCard.ValueText | internal/poker/card.go:135-151 | a value has a text exactly when it lies in 2..14 (ace-low has none) |
| PokerCard.SuitText | internal/poker/card.go:158-165 | a suit has a symbol and a name exactly when it is one of the four single-bit flags |
| PokerCard.CardNumToString | internal/poker/card.go:134-179 | for a value in 2..14 and a suit flag, `Name` is value, space, symbol and `FullName` is value, " of ", suit name; otherwise the error and both names untouched |
| PokerCard.ValueTextInjective | internal/poker/card.go:135-151 | no two values share a text |
| PokerCard.CardNameInjective | internal/poker/card.go:134-179 | the short name of a card determines its value and suit |
| PokerDeck.SuitAt | internal/poker/deck.go:17 | the k-th card of a fresh deck has suit 1, 2, 4 or 8, thirteen positions each |
| PokerDeck.ValueAt | internal/poker/deck.go:18 | the k-th card of a fresh deck has a value in 2..14 |
| PokerDeck.FreshDeckPositionsDistinct | internal/poker/deck.go:17-27 | no two positions of a fresh deck carry the same suit and value |
| PokerDeck.FillSuit | internal/poker/deck.go:18-26 | the inner loop names the thirteen cards of one suit at their positions, and `cardNumToString` never fails for them |
| PokerDeck.Deck.constructor | internal/poker/deck.go:11-32 | 52 distinct fresh cards, suit-major with values 2..14, each named by `cardNumToString`; `pos` ends at 0 |
| PokerDeck.Deck.Shuffle | internal/poker/deck.go:34-44 | one to four rounds of swaps leave a permutation of the cards; `pos` is reset to 0 |
| PokerDeck.Deck.Pop | internal/poker/deck.go:47-50 | `pos` advances by one (wrapping) and the card under the old position is returned; past the end the index panics |
| PokerPlayer.Action.Clear | internal/poker/player.go:14-17 | the action becomes "waiting for first action" with amount 0 |
| PokerPlayer.Player.constructor | internal/poker/player.go:257-273 | `NewPlayer`: default and current name are the argument, the seat is vacant, 100000 chips, action `VacantSeat`, fresh empty hole and a mucked empty hand |
| PokerPlayer.Player.NewCards | internal/poker/player.go:275-278 | a fresh empty hole and a mucked empty hand; every other field unchanged |
| PokerPlayer.Player.SetName | internal/poker/player.go:34-42 | the empty name restores the default name; any other name is stored verbatim |
| PokerPlayer.Player.CanBet | internal/poker/player.go:44-47 | a player who can bet is seated and has not folded, gone all in or joined mid-round; a seated player waiting for a first action can bet |
| PokerPlayer.Player.Clear | internal/poker/player.go:280-289 | name back to the default, vacant, 100000 chips, fresh cards, action `{VacantSeat, 0}`; `IsCPU`, `TablePos` and `PreHand` kept |
| PokerPlayer.Player.ActionToString | internal/poker/player.go:295-320 | "bad player state" exactly for a value that is not a declared state; a vacant seat reads "seat is open" |
| PokerPlayer.ActionTextBadIff | internal/poker/player.go:295-320 | every declared state has its own text, different from the default case's |
| PokerPlayer.PlayerNode.constructor | internal/poker/player.go:59-62 | a node holding the player and the given successor |
| PokerPlayer.PlayersOf | internal/poker/player.go:247-250 | the players of a node sequence, one per node, in the same order |
| PokerPlayer.FirstWithName | internal/poker/player.go:164-190 | the index of the first node whose player has the name, or the length when none has |
| PokerPlayer.RemoveAt | internal/poker/player.go:182-184 | the sequence without its k-th element, the others in order |
| PokerPlayer.RemoveAtMultiset | internal/poker/player.go:146-196 | removal drops exactly one occurrence of the removed element |
| PokerPlayer.RemoveAtHead | internal/poker/player.go:172-180 | removing the head leaves the rest in order from the old second node |
| PokerPlayer.PlayerList.constructor | internal/poker/player.go:85-111 | `NewPlayerList`: a ring of fresh nodes holding the players in the given order, `Len` their number and `Head` the first; empty input gives `Len` 0 and no head |
| PokerPlayer.PlayerList.Clone | internal/poker/player.go:125-127 | a new list of fresh nodes with the new name and the same player sequence |
| PokerPlayer.PlayerList.AddPlayer | internal/poker/player.go:129-144 | the player is appended at the tail: `Len` grows by one, the old nodes keep their order, and `Head` is unchanged unless the list was empty |
| PokerPlayer.PlayerList.RemovePlayer | internal/poker/player.go:146-196 | an empty list, a nil player or an absent name change nothing and return nil; otherwise the first node with the name is unlinked, the others keep their cyclic order, and the node after it is returned (the new `Head` when the head went; nil when the only node went) |
| PokerPlayer.PlayerList.UnlinkHead | internal/poker/player.go:172-180 | the old second node becomes `Head`, the tail is relinked to it, and it is returned |
| PokerPlayer.PlayerList.UnlinkAfter | internal/poker/player.go:182-184 | the node before position i skips over it; its successor is returned |
| PokerPlayer.PlayerList.GetPlayerNode | internal/poker/player.go:198-212 | the first node within `Len` steps of `Head` whose player has the name, or nil |
| PokerPlayer.PlayerList.SetHead | internal/poker/player.go:214-225 | `Head` becomes the node; the ring is unchanged, and read from the new head it is a rotation of the old order |
| PokerPlayer.PlayerList.ToNodeArray | internal/poker/player.go:227-238 | the `Len` nodes in order from `Head` |
| PokerPlayer.PlayerList.ToPlayerArray | internal/poker/player.go:240-255 | the `Len` players in order from `Head`; empty for an empty list |
| PokerPlayer.RotationIsRing | internal/poker/player.go:214-225 | read from any of its nodes, a ring is again a ring |
| PokerPot.Pot.constructor | internal/poker/pot.go:14-26 | `NewPot`: an open pot with the bet, no players, total 0; the empty name becomes "unnamed pot" |
| PokerPot.Pot.PutAll | internal/poker/pot.go:29-31 | the range loop stores every entry under its key: the old map overridden by the new one |
| PokerPot.Pot.WithPlayers | internal/poker/pot.go:28-34 | the entries are merged into `Players` and the pot itself is returned |
| PokerPot.Pot.HasPlayer | internal/poker/pot.go:36-38 | membership is by the player's current name |
| PokerPot.Pot.AddPlayer | internal/poker/pot.go:40-43 | the player is stored under its name, so adding it again changes nothing |
| PokerPot.Pot.AddPlayers | internal/poker/pot.go:45-50 | every entry of the map is stored under its key |
| PokerPot.Pot.RemovePlayer | internal/poker/pot.go:52-60 | only the player's name is deleted; a nil player empties the map |
| PokerPot.Pot.Clear | internal/poker/pot.go:78-88 | players, bet, total, closed flag and win text are reset; the name is kept |
| PokerPot.SidePot.constructor | internal/poker/pot.go:96-104 | `NewSidePot`: a fresh pot named "unknown sidepot" with the bet and no must-call pot |
| PokerPot.SidePot.WithName | internal/poker/pot.go:106-110 | the name is set and the side pot returned |
| PokerPot.SidePot.WithPlayers | internal/poker/pot.go:112-118 | the entries are merged into the players and the side pot returned |
| PokerPot.SidePot.WithPlayer | internal/poker/pot.go:120-125 | the side pot is named "<player> sidePot" and holds the player |
| PokerPot.SidePot.WithMustCall | internal/poker/pot.go:127-131 | the must-call pot is set and the side pot returned |
| PokerPot.SidePot.Calculate | internal/poker/pot.go:133-150 | `Total` grows by the must-call bet times its players (when there is one) plus (`Bet` − prevBet) times this pot's players, all reduced modulo 2^64 as uint64 arithmetic does |
| PokerPot.MustCallChips | internal/poker/pot.go:142-147 | no must-call pot adds no chips |
| PokerPot.CalculateExact | internal/poker/pot.go:133-150 | the wrapping subtraction, products and sums equal the exact sum reduced modulo 2^64 |
| PokerPot.CalculateNoWrap | internal/poker/pot.go:133-150 | when prevBet ≤ `Bet` and the exact total fits in 64 bits, `Calculate` adds exactly the must-call chips and the new bets |
| PokerPot.OpenPots | internal/poker/pot.go:172-182 | the open pots, in their original order: every one returned is open and in the array, and every open one is returned |
| PokerPot.SidePotArray.constructor | internal/poker/pot.go:152-154 | an empty array |
| PokerPot.SidePotArray.Add | internal/poker/pot.go:156-158 | the pot is appended |
| PokerPot.SidePotArray.Insert | internal/poker/pot.go:160-170 | a negative index, or one past the last pot, panics and changes nothing; index 0 prepends; a positive index gives the aliased result (see Findings) |
| PokerPot.SidePotArray.InsertIntended | internal/poker/pot.go:160-170 | the intended insertion: the pot lands at the index and every old pot is kept in order |
| PokerPot.SidePotArray.GetOpenPots | internal/poker/pot.go:172-182 | exactly the non-closed pots, in order |
| PokerPot.SidePotArray.GetPotsStartingAt | internal/poker/pot.go:184-190 | the suffix from `idx` when 0 ≤ idx < len, otherwise empty |
| PokerPot.SidePotArray.GetLargest | internal/poker/pot.go:192-200 | nil exactly when no pot is open; otherwise the last open pot |
| PokerPot.SidePotArray.CloseAll | internal/poker/pot.go:202-207 | every pot is closed afterwards, so no pot is open; nothing but the pots' closed flags can change |
| PokerPot.CloseEach | internal/poker/pot.go:203-206 | each pot of the selection is closed, and a pot of the array that was closed stays closed; only the selected pots' closed flags can change |
| PokerPot.SidePotArray.IsEmpty | internal/poker/pot.go:209-211 | true exactly for an array without pots |
| PokerPot.NoOpenPots | internal/poker/pot.go:202-207 | when every pot is closed there are no open pots (and `GetLargest` is nil) |
| PokerPot.InsertedAt | internal/poker/pot.go:160-170 | the clean insertion: one longer, the element at the index, the prefix kept and the suffix moved up by one |
| PokerPot.InsertedAtMultiset | internal/poker/pot.go:160-170 | the clean insertion keeps every old element and adds the new one |
| PokerPot.InsertAtZeroAgrees | internal/poker/pot.go:165-166 | at index 0 the code as written is the clean insertion (a prepend) |
| PokerPot.InsertAsWrittenLosesElement | internal/poker/pot.go:167-168 | at a positive index the code as written drops the old element at the index and holds the new one twice |
| PokerPot.InsertAsWrittenExample | internal/poker/pot.go:167-168 | inserting 9 at index 1 of [1, 2] gives [1, 9, 9] instead of [1, 9, 2] |
| PokerPot.SidePots.constructor | internal/poker/pot.go:218-224 | `NewSidePots`: no all-in pots and no betting pot |
| PokerPot.SidePots.GetAllPots | internal/poker/pot.go:226-237 | the all-in pots in order, then the betting pot when there is one |
| PokerPot.SidePots.IsEmpty | internal/poker/pot.go:239-241 | true exactly when there are no all-in pots and no betting pot |
| PokerPot.SidePots.Clear | internal/poker/pot.go:243-248 | afterwards there are no all-in pots and no betting pot, so `IsEmpty` holds |
| PokerShowdown.WithKey | internal/poker/poker.go:1802-1810 | the players kept by a selection pass are players of the input |
| PokerShowdown.MaxKeyIsMax | internal/poker/poker.go:1802-1810 | the largest key bounds every player's key and is some player's key |
| PokerShowdown.WithKeyExactly | internal/poker/poker.go:1802-1810 | a player is kept exactly when it is in the input and has the given key |
| PokerShowdown.WithMaxNonEmpty | internal/poker/poker.go:1802-1810 | keeping the players of the largest key keeps at least one |
| PokerShowdown.KeepBestStep | internal/poker/poker.go:1804-1810 | one iteration of the selection loop (append on an equal key, restart on a greater one) keeps "the players of the largest key so far" |
| PokerShowdown.KeepBest | internal/poker/poker.go:1802-1810 | the selection loop returns the players of the largest key, in input order |
| PokerShowdown.CheckTies | internal/poker/poker.go:1573-1590 | panics exactly when more than one (or no) player is compared at an index some hand lacks; otherwise narrows to the highest card at k, then k − 1, down to 0 |
| PokerShowdown.LexLeRefl | internal/poker/poker.go:1573-1590 | the card-by-card order compares a hand equal to itself |
| PokerShowdown.LexLeAntisym | internal/poker/poker.go:1573-1590 | two equally long card runs, each at least the other, are equal |
| PokerShowdown.ValuesLength | internal/poker/poker.go:1573-1590 | cards k..0 are k + 1 values |
| PokerShowdown.TiesMeaning | internal/poker/poker.go:1573-1590 | `checkTies` returns a non-empty sub-list of its input; no input player beats a returned one on cards k..0 compared from k downward; and every input player equal to a returned one on those cards is returned too |
| PokerShowdown.TiedAreEqual | internal/poker/poker.go:1573-1590 | the players `checkTies` returns together have the same cards k..0 |
| PokerShowdown.BestHand | internal/poker/poker.go:1802-1812 | an empty list panics; otherwise the players of the highest rank are narrowed by `checkTies` from the fifth card |
| PokerShowdown.BestHandWinners | internal/poker/poker.go:1802-1812 | the winners are players of the list with the highest rank, none of that rank beats them on the five hand cards, and every player of that rank with the same five cards is a winner |
| PokerShowdown.AssembleBestHand | internal/poker/poker.go:1843-1870 | pre-flop, without exactly two hole cards, or with fewer than three community cards, `Hand` is unchanged; otherwise the joined cards are sorted and the hand is evaluated; with `preshow` the result goes to `PreHand` and `Hand` is restored |
| PokerTable.TableLockNames | internal/poker/poker.go:53-66 | only the four locks 0..3 have a name in TableLockNameMap, and different locks have different names |
| PokerTable.TableStateNames | internal/poker/poker.go:293-318 | every state from NotStarted to GameOver has its own name; Reset and any other value read "BUG: bad table state" |
| PokerTable.BettingStates | internal/poker/poker.go:279-291 | the betting states are exactly PreFlop, Flop, Turn, River, Rounds, PlayerRaised and Reset; Rounds bets and RoundOver does not |
| PokerTable.SeatName | internal/poker/poker.go:172 | a default seat name is "p" followed by the seat number |
| PokerTable.Admitted | internal/poker/poker.go:569-576 | a mid-round addition becomes FirstAction with its amount kept; any other action is left alone |
| PokerTable.AdmittedIdempotent | internal/poker/poker.go:569-576 | admitting twice is admitting once, and no admitted player is still a mid-round addition |
| PokerTable.NewTable | internal/poker/poker.go:165-197 | a seat count outside 2..7 is refused with "numPlayers must be between 2 and 7" and no table; any other gives a valid table with that many vacant seats, no players, ante 10, an empty community and state NotStarted |
| PokerTable.Table.constructor | internal/poker/poker.go:170-197 | a table with the given seat count, fresh vacant seats named "p0", "p1", ..., ante 10, empty community, empty main pot "mainpot" and no side pots, empty player lists, no dealer or blinds, state NotStarted |
| PokerTable.NewSeats | internal/poker/poker.go:170-173 | the seat loop creates `numSeats` distinct fresh vacant players, seat k named "p" + k with its CPU flag |
| PokerTable.Table.SetNumSeats | internal/poker/poker.go:144-157 | a count outside 2..7 or below the number of players is refused with the source's message and leaves NumSeats; any other count is stored |
| PokerTable.Table.GetNumOpenSeats | internal/poker/poker.go:565-567 | seats minus players in uint8 arithmetic, wrapping when there are more players than seats; zero exactly when they are equal |
| PokerTable.Table.GetOpenSeat | internal/poker/poker.go:508-526 | null when no seat is open or none is vacant, and then nothing changes; otherwise the lowest-index vacant seat, now occupied, with NumPlayers one higher (uint8, wrapping); only NumPlayers and the seats' vacancy flags can change, and no other seat's flag does |
| PokerTable.Table.GetOccupiedSeats | internal/poker/poker.go:528-538 | the non-vacant seats, in seat order, and no other player |
| PokerTable.Table.GetActiveSeats | internal/poker/poker.go:552-563 | the non-vacant seats whose player did not join mid-round, in seat order |
| PokerTable.Table.DefaultPlayerNames | internal/poker/poker.go:320-328 | one default name per seat, in seat order |
| PokerTable.Table.InBettingState | internal/poker/poker.go:279-291 | true exactly outside NotStarted, DoneBetting, RoundOver, ShowHands, SplitPot, NewRound and GameOver |
| PokerTable.Table.TableStateToString | internal/poker/poker.go:293-318 | the state's name, and the bug text exactly for a state without a name |
| PokerTable.Table.IsABlind | internal/poker/player.go:50-57 | a player is a blind exactly when the big or small blind is set and carries the player's name |
| PokerTable.Table.BettingIsImpossible | internal/poker/poker.go:383-386 | betting is impossible exactly when fewer than two players remain in the current list |
| PokerTable.AdmitPlayers | internal/poker/poker.go:569-576 | every listed player's action becomes its admitted form; no other field of any player can change |
| PokerTable.Table.AddNewPlayers | internal/poker/poker.go:569-576 | every active player's action becomes its admitted form; no other field of any player can change |
| PokerTable.ResetPlayers | internal/poker/poker.go:1611-1616 | every listed player gets fresh empty hole cards, the muck hand and a first action with nothing bet; only those three fields can change, so chips, name, vacancy and seat stay |
| PokerTable.Table.ResetActivePlayers | internal/poker/poker.go:1611-1616 | every active player gets fresh empty hole cards, the muck hand and a first action with nothing bet; only those three fields can change, so chips, name, vacancy and seat stay |
| PokerTable.Table.NextRoundCount | internal/poker/poker.go:1618-1625 | the community is emptied, the round count grows by one (wrapping at 2^64) and the ante doubles (wrapping) when the new count is a multiple of ten |
| PokerTable.Table.PrepareRound | internal/poker/poker.go:1606-1625 | the deck is a permutation of the old one with nothing dealt, every active player is reset, the community is empty and round count and ante advance as above; of the players only action, hole cards and hand can change |
| PokerTable.Table.ShuffleAndAdmit | internal/poker/poker.go:1607-1609 | the deck holds the same cards with nothing dealt, and every active player's action is its admitted form |
| PokerTable.Table.RenewCurrent | internal/poker/poker.go:1629 | the current list is a fresh clone of the active list, player for player |
| PokerTable.ClearPots | internal/poker/poker.go:1632-1634 | the main pot is empty with its bet set, and there are no side pots |
| PokerTable.Table.StartBetting | internal/poker/poker.go:1630-1635 | no better, the bet at the ante, the main pot empty with the ante as its bet, no side pots, state NewRound |
| PokerTable.Table.ResumeRound | internal/poker/poker.go:1629-1635 | a fresh current list equal to the active one, the betting reset, dealer and blinds kept |
| PokerTable.Table.RepairSeats | internal/poker/poker.go:1627 | the seat repair of NewRound panics exactly when all three seats are missing and nobody is active; otherwise dealer and blinds are set |
| PokerTable.Table.StartRound | internal/poker/poker.go:1627-1635 | after the seat repair, a fresh current list equal to the active one and the betting reset; the panic case is that of the repair |
| PokerTable.Table.NewRound | internal/poker/poker.go:1606-1636 | the deck is reshuffled with nothing dealt, the community empty, round count and ante advanced; NewRound panics exactly when dealer and blinds are all missing and nobody is active, and otherwise sets dealer and blinds, a fresh current list equal to the active one, and resets the betting; of the players only action, hole cards and hand can change |
| PokerTable.Table.NewCommunity | internal/poker/poker.go:264-267 | both community lists are empty |
| PokerTable.Table.AddToCommunity | internal/poker/poker.go:1433-1436 | the card is appended to both community lists |
| PokerTable.Table.SortCommunity | internal/poker/poker.go:1456-1458 | the sorted copy is in non-decreasing value order and holds the same cards |
| PokerTable.Table.PopToCommunity | internal/poker/poker.go:1433-1436 | the next deck card goes to both lists; past the 52nd card Pop panics and nothing is added |
| PokerTable.Table.DrawCommunityCard | internal/poker/poker.go:1559-1563 | one card from the deck is appended to the community and the sorted copy holds the old cards plus it, in order; past the end of the deck it panics |
| PokerTable.Table.DealFlop | internal/poker/poker.go:1550-1552 | the three next deck cards are appended to both community lists, or the deck runs out and it panics |
| PokerTable.Table.DoFlop | internal/poker/poker.go:1549-1557 | three deck cards appended in deck order, the sorted copy sorted once and holding them, State at Rounds; it panics exactly when fewer than three cards are left |
| PokerTable.Table.DoTurn | internal/poker/poker.go:1559-1563 | one deck card appended and the sorted copy re-sorted; panics when the deck is exhausted |
| PokerTable.Table.DoRiver | internal/poker/poker.go:1565-1569 | one deck card appended and the sorted copy re-sorted; panics when the deck is exhausted |
| PokerTable.Table.NextCommunityAction | internal/poker/poker.go:1460-1487 | PreFlop deals three cards and moves to Flop, Flop one card to Turn, Turn one card to River, each completed step ending in State Rounds with the table valid and the sorted community copy ordered; River sets RoundOver and leaves the cards and CommState; any other community state panics with nothing changed; after the flop, with two or more players in the current list, the betting order restarts as ReorderPlayers does after the flop (the current player heads the current list, which starts at the small blind's player when it is listed; blinds and active ring kept), and with fewer the reorder is skipped |
| PokerTable.Table.FlopStep | internal/poker/poker.go:1462-1469 | the PreFlop case: the flop dealt and CommState at Flop, a panic when fewer than three cards are left, the post-flop reorder with two or more current players, and a completed step valid with State at Rounds |
| PokerTable.Table.FlopReorder | internal/poker/poker.go:1466-1469 | with fewer than two current players nothing is reordered; otherwise the current player heads the current list, which starts at the small blind's player when it is listed, the active ring and the blinds kept; a completed step is valid with State at Rounds |
| PokerTable.Table.FindAhead | internal/poker/poker.go:672-679 | the first node within the ring whose node one or two steps on carries the name, or null |
| PokerTable.Table.RestartAtHead | internal/poker/poker.go:664-669 | with all three seats missing the head deals and the blinds are the next two seats |
| PokerTable.Table.DealerFromBigBlind | internal/poker/poker.go:670-687 | with dealer and small blind missing, the dealer is the first node two seats before the big blind's name and the blinds follow it |
| PokerTable.Table.SetButton | internal/poker/poker.go:684-686 | the dealer at the node, the small blind after it, the big blind after that |
| PokerTable.Table.DealerFromSmallBlind | internal/poker/poker.go:689-704 | with only the dealer missing, it is the first node one seat before the small blind's name |
| PokerTable.Table.FillBlinds | internal/poker/poker.go:706-714 | a missing small blind is the seat after the dealer and a missing big blind the seat after the small blind; present ones are kept |
| PokerTable.Table.HandleOrphanedSeats | internal/poker/poker.go:659-715 | it panics exactly when all three seats are missing and the active list is empty; otherwise dealer and blinds are set, the present ones kept, and each missing one placed as the four source cases say |
| PokerTable.WalkToBettor | internal/poker/poker.go:636-638 | the walk stops at the first player along the ring who can bet, or reports that none can within one lap |
| PokerTable.RotatedChain | internal/poker/poker.go:636-638 | a ring read from any position is linked node to node |
| PokerTable.Table.FirstBettorAfter | internal/poker/poker.go:635-638 | the first player after the node who can bet, with every player before it unable to; null exactly when nobody in the ring can bet (the source loops forever there) |
| PokerTable.Table.SetActiveHead | internal/poker/poker.go:611 | the active ring starts at the node and keeps its members and length |
| PokerTable.Table.SetCurHead | internal/poker/poker.go:612-655 | the current list starts at the node and the current player is its head; a null node is the panic of the Assert |
| PokerTable.Table.ReorderPreFlop | internal/poker/poker.go:609-616 | before the flop the active ring starts after the big blind, and the current list at the first node with that player's name, or it panics when there is none |
| PokerTable.Table.BeforeBigBlind | internal/poker/poker.go:622-627 | the walk from the head stops at the first node whose successor carries the big blind's name |
| PokerTable.Table.SmallBlindStandIn | internal/poker/poker.go:618-632 | a missing small blind stands in as the seat after the dealer, else the seat before the big blind, else the small blind the seat repair sets; null only when that repair panics |
| PokerTable.Table.BettorNode | internal/poker/poker.go:635-640 | the first bettor after the small blind, and the current-list node carrying its name or null |
| PokerTable.Table.ReorderAtBettor | internal/poker/poker.go:633-647 | the current list starts at the first bettor after the small blind; the walk diverges exactly when nobody can bet, and a bettor missing from the current list panics |
| PokerTable.Table.ReorderFrom | internal/poker/poker.go:633-653 | the current list starts at the small blind's player when it is in the current list, otherwise as ReorderAtBettor says, with a missing small blind a panic |
| PokerTable.Table.ReorderPostFlop | internal/poker/poker.go:617-653 | after the flop the current list starts at the small blind or its stand-in, with the seats kept when the small blind is present |
| PokerTable.Table.ReorderPlayers | internal/poker/poker.go:608-656 | before the flop both lists start after the big blind (a missing big blind panics); after it the active ring is untouched and the current list starts at the small blind, or at the first player who can bet after it; the current player is the new head |
| PokerTable.Table.MoveButton | internal/poker/poker.go:722-749 | after repairing missing seats, heads-up the big blind deals and otherwise the seat after the dealer does; the blinds are the next two seats |
| PokerTable.Table.RotatePlayers | internal/poker/poker.go:718-750 | before the game starts or with fewer than two active players nothing changes and the table stays valid; otherwise the dealer moves to the old big blind when the big blind's successor is the dealer and to the next seat otherwise, the small blind is the dealer's successor and the big blind the small blind's; then ReorderPlayers' outcome is passed on: a completed reorder is valid with the current player at the head, list lengths are kept, before the flop both lists start at the big blind's successor, and after it the active ring is kept and the current list starts at the small blind's player when it is listed |
| PokerTable.Table.RotateBeforeFlop | internal/poker/poker.go:722-749 | the button move, then both lists start at the new big blind's successor; the reorder completes exactly when that player is in the current list |
| PokerTable.Table.RotateAfterFlop | internal/poker/poker.go:722-749 | the button move, then the active ring is kept and the current list starts at the new small blind's player when it is listed; a reorder that never ends means nobody can bet |
| PokerTable.OccupiedOf | internal/poker/poker.go:528-538 | the occupied seats keep seat order and are exactly the non-vacant seats |
| PokerTable.ActiveOf | internal/poker/poker.go:552-563 | the active seats keep seat order and are exactly the non-vacant seats not added mid-round |
| PokerTable.FirstVacant | internal/poker/poker.go:516-523 | the index of the first vacant seat, every seat before it occupied, or the seat count when none is vacant |
| PokerTable.FirstAhead | internal/poker/poker.go:672-698 | the first position whose node one or two steps on carries the name, with no earlier position doing so, or the ring's length |
| PokerTable.AheadFound | internal/poker/poker.go:680-699 | a name carried by a node of the ring is always found, so the Assert of handleOrphanedSeats cannot fail |
| LegacyNet.NamedTags | net.go:14-69 | the forty NetAction constants are the tags in declaration order: NetDataClose is bit 0 and NetDataBadRequest bit 39 |
| LegacyNet.FlagsAreDistinctBits | net.go:14-69 | there are forty tags, tag k is 2^k, and the tags strictly increase, so no two are equal |
| LegacyNet.TagNeedsTable | net.go:119-126 | a single tag needs a table, as a request or as the response of an empty request, exactly when it is NewConn, ClientExited, UpdateTable or Deal |
| LegacyNet.TagNeedsPlayer | net.go:129-136 | a single tag needs a player, by the same request-first rule, exactly when it is one of the ten player tags; Deal is in both masks |
| LegacyNet.TagNeedsAction | net.go:77 | a single tag meets the needs-action mask exactly when it is AllIn, Bet, Call, Check, Fold or Raise |
| LegacyNet.NeedsEitherMask | net.go:79 | the combined needs mask meets a message exactly when the table mask or the player mask does |
| LegacyNet.TagIndex | net.go:14-69 | a value found among the tags is the tag at the position found |
| LegacyNet.FindTag | net.go:14-69 | the search finds a position whose tag is the value, or shows that no tag from there on is |
| LegacyNet.TagIndexOfTag | net.go:14-69 | every tag is found at its own position |
| LegacyNet.ActionNames | net.go:145-207 | a tag other than NetDataServerClosed is named by its own constant name; a value that is no tag gets "invalid NetData request: " and its decimal value |
| LegacyNet.ServerClosedUnnamed | net.go:145-193 | the map as written has no entry for NetDataServerClosed, which reads "invalid NetData request: 2048" |
| LegacyNet.ActionNamesIntended | net.go:145-193 | with the missing entry added, every tag is named by its own name |
| LegacyNet.ServerClosedNamedIntended | net.go:145-207 | the corrected map names NetDataServerClosed and still has no name for a value that is no tag |
| LegacyNet.NetData.constructor | net.go:81-88 | an envelope with the given client, request, response, message and table |
| LegacyNet.NetData.ClearData | net.go:105-116 | request, response, message and table are zeroed; the client is replaced only by a non-nil one |
| LegacyNet.NetActionToStringChoice | net.go:140-208 | a nil envelope reads "netData == nil"; otherwise the request is named when it is non-zero, and the response only when the request is zero |
| NetUtil.SameNamedStates | internal/net/util.go:9-21 | each of the nine listed actions maps to the player state of the same name |
| NetUtil.ZeroOutsideTable | internal/net/util.go:23-27 | the result is zero exactly for actions outside the table (Raise and ChatMsg among them), zero is no player state, and every other result is one |
| NetUtil.StatesInjective | internal/net/util.go:10-20 | no two actions of the table map to the same state |
| NetClient.ClientSettings.constructor | internal/net/room.go:795-807 | a settings record with every field given |
| NetClient.NewClientSettings | internal/net/room.go:809-813 | fresh settings whose name is "noname" and whose other fields are zero |
| NetClient.Client.constructor | internal/net/client.go:32-34 | a client holding the settings, with every other field zero |
| NetClient.NewClient | internal/net/client.go:26-37 | nil settings are replaced by fresh default settings named "noname"; given settings are kept |
| NetClient.Client.SetName | internal/net/client.go:39-50 | a name longer than 20 bytes is rejected and the old name kept; any other name is stored as it is; the receiver is returned |
| NetClient.Client.SetConn | internal/net/client.go:52-56 | the connection is stored and the receiver returned |
| NetClient.Client.SetConnType | internal/net/client.go:58-62 | the connection type is stored and the receiver returned |
| NetRoom.TrimLeftShape | internal/net/room.go:836 | trimming the front drops a prefix made only of spaces and leaves a result that does not start with a space |
| NetRoom.TrimRightShape | internal/net/room.go:836 | trimming the back drops a suffix made only of spaces and leaves a result that does not end with a space |
| NetRoom.TrimSpaceSlice | internal/net/room.go:836 | strings.TrimSpace keeps a slice of the input with only spaces before and after it, and the slice neither starts nor ends with a space |
| NetRoom.TrimSpaceIdempotent | internal/net/room.go:836 | trimming twice is trimming once |
| NetRoom.SettledNameBounds | internal/net/room.go:836-876 | the settled name is the trimmed request or empty, at most 15 bytes and so within the client's 20, empty for a spectator asking for a seat's name, and already trimmed |
| NetRoom.SeatedTakenNameKept | internal/net/room.go:845-864 | for a seated player asking for a name another client holds, the reply says the current name is unchanged while the settled name is still the taken name |
| NetRoom.SettledNameIntendedKeeps | internal/net/room.go:845-864 | with the intended rule a seated player's name never moves to a taken name, a free name is installed as asked, and spectators settle as before |
| NetRoom.SeatTaken | internal/net/room.go:866-876 | the scan over the seats finds the name exactly when some seat carries it |
| NetRoom.SettingsReply | internal/net/room.go:877-917 | a non-admin gets the settings header and the name notice; for the admin a changed password over 50 bytes is refused first, then a lock without a name, each with the source's error text and no message; otherwise the header, the name notice and the admin notice |
| NetRoom.Room.constructor | internal/net/room.go:35-48 | a room over the table with an empty name map |
| NetRoom.Room.HandleClientSettings | internal/net/room.go:815-918 | a nil client or nil settings returns the source's error; otherwise the trimmed name is vetted into `settings.Name` (empty when too long, or for a spectator when a seat carries it) and the reply and error are those of SettingsReply for that name's notice |
| NetRoom.Room.SettleName | internal/net/room.go:836-876 | the trimmed name is checked against the seats, settled into `settings.Name`, and the name notice returned |
| NetRoom.Room.IsLockedMeaning | internal/net/room.go:997-1008 | no lock and a player lock never lock the room, a spectator lock does exactly when no seat is open, and the full lock always does |
| NetRoom.Room.CommStateResponseMeaning | internal/net/room.go:920-933 | Flop, Turn and River map to their own responses, and every other community state to NetDataBadRequest |
| NetRoom.Room.ApplySettings | internal/net/room.go:943-955 | a seated player takes the settings name, or its default name when that is empty, and the client name follows when it fits; the admin's lock and password go to the table; a spectator's client takes the name; of the player only its name can change, of the table only lock and password |
| NetRoom.Room.ApplyClientSettings | internal/net/room.go:935-956 | as written: nil settings install fresh defaults and then panic on the nil record; otherwise the record is installed and applied as ApplySettings says; of the player only its name can change, of the table only lock and password |
| NetRoom.Room.ApplyClientSettingsIntended | internal/net/room.go:935-956 | as intended: nil settings are replaced by fresh defaults named "noname", which are then applied; of the player only its name can change, of the table only lock and password |
| WebProto.JsTagsMatchGo | web/lib/libgopoker.js:3-55 | the client's first forty tags are the server's tags at the same bit positions; ROOM_SETTINGS is bit 40 and no server tag |
| WebProto.TagsNamedAlike | web/lib/libgopoker.js:3-59 | each of the forty shared tags is found by the client under JsKeys[k] and named "NetData" + FlagNames[k] by the server's intended map |
| WebProto.FindKey | web/lib/libgopoker.js:57-59 | the key search finds the first key whose value is the argument, or shows that no later key has it |
| WebProto.NetDataToStringTag | web/lib/libgopoker.js:57-59 | every tag is named by its own key |
| WebProto.TwoBitsNoTag | web/lib/libgopoker.js:88-98 | a value with two distinct bits set is no single tag |
| WebProto.NetDataToStringTableMask | web/lib/libgopoker.js:88-89 | the table mask, being no tag, is found under its own key NEEDS_TABLE_BITMASK |
| WebProto.NetDataToStringPlayerMask | web/lib/libgopoker.js:91-93 | the player mask is found under NEEDS_PLAYER_BITMASK |
| WebProto.NetDataToStringActionMask | web/lib/libgopoker.js:95-96 | the action mask is found under NEEDS_ACTION_BITMASK |
| WebProto.NetDataToStringNeedsMask | web/lib/libgopoker.js:98 | the combined mask is found under NEEDS_BITMASK |
| WebProto.NeedsAgreeOnOneField | web/lib/libgopoker.js:100-108 | the client's response-first test and the server's request-first test agree whenever one of the two fields is zero |
| WebProto.NeedsPrecedenceDiffers | web/lib/libgopoker.js:100-108 | with both fields set they disagree: a CLOSE request with a DEAL response needs a table and a player on the client and neither on the server |
| WebProto.PlayerActionKnown | web/lib/libgopoker.js:61-86 | exactly the nine handled actions get a text of their own; every other action reads "bad player state" |
| WebProto.RaiseIsBadState | web/lib/libgopoker.js:61-86 | RAISE has no case and reads "bad player state", while BET reads as a raise with its amount |
| WebProto.LockNamesAgainstGo | web/lib/libgopoker.js:110-126 | the client's lock names match the server's for the player, spectator and full locks; no lock reads "none" instead of "no lock", and exactly the unknown locks read "invalid table lock" |
| WebProto.Lower | web/lib/libgopoker.js:162 | lower-casing keeps the length and maps each character on its own |
| WebProto.JsStateNameValid | web/lib/libgopoker.js:128-163 | exactly the states 0..13 have a name; any other reads "invalid table state" |
| WebProto.JsStateNameLower | web/lib/libgopoker.js:161-163 | every state name the client shows is in lower case |
| WebProto.StateNamesAgainstGo | web/lib/libgopoker.js:128-163 | RESET is the one state the client names and the server does not |
| WebProto.NewClient | web/lib/libgopoker.js:165-184 | the result holds the settings under `Settings`; name and password are passed through; the admin part is null exactly when room name, lock and password are all undefined, and otherwise holds those three |
| WebProto.JsNetData.constructor | web/lib/libgopoker.js:186-192 | an envelope with the client, request and table, the message defaulting to "" and no response |
| WebProto.JsNetData.BuiltNeedsAgree | web/lib/libgopoker.js:100-108 | a message the client builds has no response, so its needs are the ones the server computes |
| WebProto.FindSep | web/lib/libgopoker.js:213 | the search finds the first place " of " starts, or shows there is none |
| WebProto.SplitAtSep | web/lib/libgopoker.js:213 | a full name "X of Y" with no space in X splits first right after X |
| WebProto.ImagePathOfCard | web/lib/libgopoker.js:212-218 | the image path of a card's full name is "/cards/card", the suit name with a capital first letter, the value text and ".png" |
| ServerConfig.ServerAddr | web/serverConfig.js:2 | an address that is unset or empty falls back to "localhost"; any other is used |
| ServerConfig.ConfigMeaning | web/serverConfig.js:1-10 | the config exists exactly when the SSL variable is set; SSL is on exactly when it reads "true" after lower-casing, and then the HTTP URL is "https://" and the websocket URL "wss://" before the address, otherwise "http://" and "ws://" |
| ServerConfig.SslSpellings | web/serverConfig.js:6 | "TRUE" and "True" enable SSL; "1" and "yes" do not |
| ServerConfig.SchemesPaired | web/serverConfig.js:9-10 | the HTTP URL is secure exactly when the websocket URL is |
| SeatArray.InitialSeats | web/components/Tablenew.jsx:76-118 | the initial array has one vacant-seat sentinel per seat, each with its own index as TablePos |
| SeatArray.FindByID | web/components/Tablenew.jsx:221 | the search finds the first slot carrying the ID, or shows that none does |
| SeatArray.FindVacant | web/components/Tablenew.jsx:295-316 | the search finds the first slot named "vacant seat", or shows that none is |
| SeatArray.SentinelNeverMatched | web/components/Tablenew.jsx:82-86 | a sentinel has no ID, so no client with an ID ever matches one |
| SeatArray.UpdateWithoutMatch | web/components/Tablenew.jsx:215-238 | a client without an ID, or with one no slot carries, leaves the array as it is |
| SeatArray.UpdateFirstMatch | web/components/Tablenew.jsx:220-233 | only the first slot carrying the client's ID changes, to the client when not vacating; the length and every other slot stay; vacating fails only when neither the response nor the slot has a player |
| SeatArray.VacatePosition | web/components/Tablenew.jsx:223-229 | a vacated slot becomes a sentinel at the client's TablePos, or at the slot's own when the response carries none |
| SeatArray.VacateTwice | web/components/Tablenew.jsx:221-238 | vacating a client that holds one seat a second time changes nothing |
| SeatArray.FillVacant | web/components/Tablenew.jsx:293-323 | filling keeps the array's length |
| SeatArray.FillVacantMeaning | web/components/Tablenew.jsx:293-323 | the client goes into the first slot named "vacant seat" and nothing else changes; with no such slot the array is unchanged |
| SeatArray.Occupants | web/components/Tablenew.jsx:466 | the filter keeps exactly the entries that are not sentinels |
| SeatArray.Padding | web/components/Tablenew.jsx:467-476 | the pushed sentinels fill the gap between the two lengths, each at its own index |
| SeatArray.Repad | web/components/Tablenew.jsx:463-483 | a zero seat count leaves the array; otherwise the result is the occupants in order followed by the padding sentinels |
| SeatArray.RepadShape | web/components/Tablenew.jsx:463-483 | the re-pad never truncates, keeps every occupant at its rank, and each pushed sentinel sits at its own index |
| SeatArray.OccupantsOfOccupied | web/components/Tablenew.jsx:466 | an array with no sentinel is kept whole by the filter |
| SeatArray.Side | web/components/Tablenew.jsx:44 | a seat renders on one of the four sides |
| SeatArray.Cell | web/components/Tablenew.jsx:51-55 | a seat's grid row or column is 1, 2 or 3 |
| SeatArray.PlacesDistinct | web/components/Tablenew.jsx:44-55 | the twelve positions 0..11 take twelve different places on the table |
| PlayerInput.DigitsOf | web/components/Player.jsx:45 | removing the non-digits leaves only digits and never lengthens the text |
| PlayerInput.DigitsOfAppend | web/components/Player.jsx:45 | removing non-digits distributes over concatenation |
| PlayerInput.DigitsOfDigits | web/components/Player.jsx:45 | a digit string is kept whole |
| PlayerInput.DecimalOfNatToString | web/components/Player.jsx:45 | BigInt reads back the decimal text of any amount |
| PlayerInput.RaiseInputOfAmount | web/components/Player.jsx:33-51 | typing an amount's digits with an optional K/k or M/m suffix stages that amount times 1, 1000 or 1000000 |
| PlayerInput.DecimalPointDropped | web/components/Player.jsx:45-51 | every non-digit is dropped, a decimal point included: "1.5k" stages 15000 |
| PlayerInput.RaiseInputZero | web/components/Player.jsx:33-48 | empty input shows '' and stages 0, and a zero amount is shown as '' |
| PlayerInput.ButtonAction | web/components/Player.jsx:55-67 | exactly the labels call, check, raise, fold and allin map to a tag |
| PlayerInput.HandleButton | web/components/Player.jsx:55-83 | an unknown label sends nothing; otherwise a fresh copy of the client with a fresh copy of its player, whose action is the label's tag and the staged amount, is sent as the request and no existing object is changed; a client without a player throws |
| PlayerInput.MultiplierOfAmount | web/components/Player.jsx:39-43 | the multiplier of an amount's digits with a suffix is 1000 for K or k, 1000000 for M or m and 1 with no suffix |
| PlayerInput.DigitsOfAmount | web/components/Player.jsx:45 | removing the non-digits from an amount's digits and a suffix leaves the amount's digits |
| LegacyPoker.LegacyPlayer.constructor | poker.go:139-150 | a legacy player with the given name, CPU flag, vacancy and chip count |
| LegacyPoker.LegacyNode.constructor | poker.go:157-160 | a node holding the player and the given successor |
| LegacyPoker.PlayersAt | poker.go:333-343 | the players held by a run of nodes, in the same order |
| LegacyPoker.NameIndex | poker.go:256-258 | the first node carrying the name, or the length when none does |
| LegacyPoker.AppendThenRemove | poker.go:207-289 | removing a player with a new name just after appending it gives back the old nodes |
| LegacyPoker.LegacyList.constructor | poker.go:163-167 | the zero list: no nodes, length 0, empty name |
| LegacyPoker.LegacyList.Init | poker.go:169-187 | fewer than two players is an error and leaves the list; otherwise a valid ring of fresh nodes for the players, in order, with the given name and length |
| LegacyPoker.LegacyList.Clone | poker.go:189-205 | a fresh list of fresh nodes with the same players in the same order; cloning an empty list gives the zero list, whose name is empty |
| LegacyPoker.LegacyList.AddPlayer | poker.go:207-222 | a fresh node for the player at the tail; the length grows by one, the old nodes keep their order and the head stays unless the list was empty |
| LegacyPoker.LegacyList.RemovePlayer | poker.go:224-289 | an empty list or a nil player changes nothing and returns nil; an absent name keeps the length and returns nil; otherwise the first node with the name is unlinked, the length drops by one, the other nodes keep their order, and the node after it is returned (the new head when the head went, nil when the only node went) |
| LegacyPoker.LegacyList.UnlinkHead | poker.go:259-272 | the second node becomes the head and the tail is relinked to it |
| LegacyPoker.LegacyList.UnlinkAfter | poker.go:273-277 | the node before position i skips over it, and the node after it is returned |
| LegacyPoker.LegacyList.ToPlayerArray | poker.go:333-343 | the players in list order from the head; empty for an empty list |
| LegacyPoker.LegacyCard.constructor | poker.go:77-82 | a card with the given suit and value and no names |
| LegacyPoker.ValueName | poker.go:2206-2222 | the value map has a text exactly for the values 2..14 |
| LegacyPoker.SuitName | poker.go:2229-2236 | the suit map has a symbol and a name exactly for the suits 0..3 |
| LegacyPoker.EngineSuit | poker.go:2229-2236 | each legacy suit corresponds to one of the newer engine's four suit flags |
| LegacyPoker.CardNumToString | poker.go:2205-2250 | an unknown value or suit is the "cardNumToString" error with both names unchanged; otherwise Name is the value text, a space and the symbol, and FullName the value text, " of " and the suit name, as the newer engine names the card |
| LegacyPoker.DeckOrderAgrees | poker.go:426-444 | the legacy deck order is suit-major with values 2..14, the same cards at the same positions as the newer deck |
| LegacyPoker.LegacyDeck.constructor | poker.go:421-424 | the zero deck: no cards, position 0 |
| LegacyPoker.LegacyDeck.Init | poker.go:426-444 | a fresh 52-card deck of distinct cards, each named and in suit-major order, with position 0; a deck whose position is not 0 panics |
| LegacyPoker.LegacyDeck.FillLegacySuit | poker.go:431-440 | the thirteen cards of one suit are added at the next thirteen positions, named and distinct from the earlier ones |
| LegacyPoker.LegacyDeck.Pop | poker.go:459-462 | the position advances by one and the card under the old position is returned; past the end the index panics |
| LegacyPoker.FirstVacant | poker.go:803-817 | the first vacant seat, or the seat count when none is vacant |
| LegacyPoker.LegacyTable.constructor | poker.go:522-553 | a table over the given seats with no players |
| LegacyPoker.LegacyTable.GetOpenSeat | poker.go:803-817 | the first vacant seat becomes occupied and NumPlayers grows by one; with no vacant seat nil is returned and nothing changes; other seats are untouched |
| LegacyPoker.AbsUint | poker.go:2258-2264 | the distance between the two arguments, computed without unsigned underflow |
| LegacyPoker.MinUInt | poker.go:2266-2272 | the smaller argument |
| LegacyPoker.AbsUintSymmetric | poker.go:2258-2272 | the distance is symmetric and equals each argument less the smaller one, summed |
| LegacyMain.WsAddr | main.go:29-37 | the normalised address always starts with "ws://" |
| LegacyMain.KeepaliveURL | main.go:50 | the keepalive URL is "http://" and the address after its first five characters |
| LegacyMain.SchemesOfHost | main.go:29-50 | for a host written with "http://", "https://" or no scheme, the websocket URL is "ws://" + host and the keepalive URL "http://" + host |
| LegacyMain.WssGetsSecondScheme | main.go:29-37 | a "wss://" address is not recognised and gets "ws://" in front of it |
| LegacyMain.WsAddrIdempotent | main.go:29-37 | normalising twice is normalising once |
| LegacyMain.SeatCount | main.go:283-288 | a seat count above 255 is refused, and any other is kept as a byte |

## Left out

- Sockets, HTTP and websocket handlers, goroutines, mutexes, timers, logging and printing are left out. They are I/O or concurrency; `table.mtx` and the room locks are no-ops here.
- gob and msgpack encoding and decoding are left out, because they are foreign libraries. No round trip through them is claimed.
- Hand evaluation (ranking five cards out of seven) is a function parameter of `PokerShowdown.AssembleBestHand`.
- `BestHand`'s first loop (internal/poker/poker.go:1784-1800) is left out: for the main pot it evaluates every player with `AssembleBestHand`, indexes both hole cards and appends a line to `WinInfo`. `PokerShowdown.BestHand` starts from hands already evaluated, and the win text is display output.
- `PlayerAction`, `handleSidePots`, `FinishRound`, `SetNextPlayerTurn`, `NextTableAction`, `Reset`, `getChipLeaders`, `GetEliminatedPlayers` and `Deal` of internal/poker/poker.go are left out. They are the betting and settlement machinery around the table core modelled here.
- `PokerTable.Table.NewRound`: its postcondition does not repeat that every active player was reset (fresh hole cards, muck hand, first action). That fact is stated by `PokerTable.Table.PrepareRound`, which `NewRound` calls first.
- `PokerShowdown.AssembleBestHand`: the seven-card list is a fresh sequence, and the table's community is untouched. In Go, Community is made with capacity 5 (internal/poker/poker.go:265), so at the flop `append(table.Community, player.Hole.Cards...)` (line 1868) writes the hole cards into Community's backing array, and `cardsSort` (line 1869) can then move hole cards into the visible `Community[0:3]`: the community can change its contents, not only its order. That aliasing is not modelled.
- `PokerDeck.Deck.Shuffle` and `PokerUtil.RandString`/`LegacyUtil.RandString`: the random choices are arbitrary. Only the permutation, length and alphabet are stated, not a distribution.
- `PokerUtil.FillLeft`, `PokerUtil.FillRight`, `LegacyUtil.FillLeft` and `LegacyUtil.FillRight`: the display width (`uniseg.StringWidth`) is a parameter.
- Chip formatting (`printer.Sprintf`, `toLocaleString`) is a parameter. `ChipCountToString` and `PlayerInfo`/`Print` in pot.go are left out as display only.
- `WebProto.Lower`: lower-casing is modelled for ASCII letters only; full Unicode case mapping is left out.
- JavaScript BigInt values are naturals. The client's `Number` conversion of chip counts for display is left out.
- React state setters and effects are left out as scheduling. The `setPlayers` updaters are modelled as the functions they pass, from the old array to the new one.
- The web client's reconnect loop (web/pages/room/[roomID].jsx:70-108: the room check, the one-second wait, the retry count and the resend as PLAYER_RECONNECTING with the private ID) and the server's reconnect handling (internal/net/server.go:621-670) lie outside the modelled files and are not modelled.
- The PLAYER_RECONNECTING and PLAYER_RECONNECTED cases of Tablenew.jsx name tags that libgopoker.js does not define. They are left out.
- `NetRoom.Room.constructor`: the table admin's ID is a parameter, because `NewRoom` leaves it to the caller.
- `NetRoom.Room.IsLockedMeaning`: it takes the table's player count to be at most its seat count. The wrap of the uint8 open-seat count beyond that is stated separately by `PokerTable.Table.GetNumOpenSeats`.
- `LegacyPoker.LegacyList`: the legacy node's player is never nil in the model. The Go code never stores a nil player.
- `LegacyPoker.LegacyPlayer`: only the fields that the modelled list, deck and seat code read or write are modelled.
- `LegacyPoker.LegacyDeck.Init`: on a deck whose position is not 0, the fill indexes past the end and panics. The model records the panic and states nothing about the partly built deck. The error return of `cardNumToString` inside the loop cannot happen, because every value and suit the loops use has a name.
- Go's `uint` in the legacy helpers is taken as 64 bits.
- `LegacyMain.WsAddrIdempotent` needs no proof of its own; it holds by unfolding `WsAddr`.
- The legacy `FrontEnd`, `runClient` and `main` of poker.go duplicate main.go. Only main.go's address and seat-count logic is modelled.
- The terminal UI, the GUI, the logger and every React component other than Tablenew.jsx and Player.jsx are left out, because they are UI.

## Findings

| source | as written | input that shows it | evidently intended | confidence | as-written member | corrected member |
|---|---|---|---|---|---|---|
| internal/poker/pot.go:167-168 | for `idx > 0`, `append(Pots[:idx], sidePot)` writes into the shared backing array before the suffix `Pots[idx:]` is read, so the old element at `idx` is lost and the new pot appears twice | inserting 9 at index 1 of [1, 2] gives [1, 9, 9] | a clean insertion: [1, 9, 2] | not executed | PokerPot.InsertAsWrittenLosesElement | PokerPot.InsertedAtMultiset |
| net.go:145-193 | the name map has no entry for `NetDataServerClosed`, so `NetActionToString` reports it as an invalid request | a request of `NetDataServerClosed` (2048) reads "invalid NetData request: 2048" | the name "NetDataServerClosed", like every other tag | not executed | LegacyNet.ServerClosedUnnamed | LegacyNet.ServerClosedNamedIntended |
| internal/net/room.go:845-864 | when a seated player asks for a name another client holds, the reply says "Current name unchanged" but `settings.Name` keeps the taken name, and `applyClientSettings` installs it | a seated player asking for the name of another client | the settled name is the player's current name, so the current name really is kept (clearing it would install the seat's default name through `SetName`) | not executed | NetRoom.SeatedTakenNameKept | NetRoom.SettledNameIntendedKeeps |
| internal/net/room.go:935-956 | for nil settings, fresh defaults are installed on the client, but `settings` itself stays nil, and `settings.Name` is then read through it | `applyClientSettings(client, nil)` | the fresh defaults are applied | not executed | NetRoom.Room.ApplyClientSettings | NetRoom.Room.ApplyClientSettingsIntended |

The model keeps `PokerPot.SidePotArray.Insert`, `LegacyNet.NetActionToString` (through `LegacyNet.ActionName`), `NetRoom.Room.HandleClientSettings` and `NetRoom.Room.ApplyClientSettings` as written. `PokerPot.SidePotArray.InsertIntended` is the corrected insertion, and `LegacyNet.ActionNameIntended` (with `LegacyNet.ActionNamesIntended`) is the corrected name map.
