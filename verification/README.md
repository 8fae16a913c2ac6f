# The item, market and creature core of the game server: a verified model

This project models the parts of the server in which state and arithmetic are dense, and
proves what they promise. Items, players, offers, trades, conditions and spell areas are
modelled with the server's own branches, constants and error results. What happens step by
step in the source happens step by step here: objects are classes, loops are loops, and each
method is proved against a specification whose properties are then proved for all inputs,
all runs or all reachable states. To verify the whole project: `dafny verify dfyconfig.toml`.

| module | part of the server |
|---|---|
| Basics, Sums | small things that several parts use |
| Otb | the OTB tree format: a stack parser over escaped bytes, and the language it accepts |
| Containers, Iteration | the heap of containers: parent pointers, cached weights, the breadth-first iterator |
| Stacks, Stacking, Moving | stacking arithmetic, adding and moving items |
| ItemExchange, FullContainers | the exchange at the end of a trade, and what happens at full containers |
| PlayerItems | items as database rows, written breadth first and rebuilt by descending id |
| PropStreams, ItemAttributes, MapItems | items as a nested byte stream with tagged attributes |
| Market, MarketPlace | the market's books over any run, and the market that keeps them |
| Trade, TradeGame | the trade protocol over any run, and the players that follow it |
| WalkCache | the cache of walkable tiles that is shifted with every step |
| ConditionStream, DamageRounds, ConditionLedger | conditions: their stream, their rounds of damage, their bonuses |
| SpellArea | the patterns of area spells, turned and mirrored |
| Decay | the wheel of four buckets for decaying items |
| Money | paying with coins |
| Searches | the searches for coins and wares through nested containers |

Some properties that one would expect do not hold of the code. The model keeps the code as
it is and states exactly when they hold:

- An item that goes to an index at or past the capacity of a container is dropped. Containers
  with pages allow such an index (`Moving.LossAtCall` says when a call loses units;
  `FullContainers.PageLosesCoins` is such a call).
- A settled expiry row returns the amount that was scanned, not the amount that is left
  (`Market.DriftIsTheExcess`, `Market.CutThenSettle`).
- The second move of a trade can fail after the first has succeeded, because the trial may
  stack and the move may not (`ItemExchange.ExchangeItems` says when for plain containers, from the state before;
  `FullContainers.SwordForNothing` is such an exchange).
- A player can accept a trade before the other one has offered anything, and is held to
  whatever is offered later (`Trade.BothHaveAccepted`, `Trade.AcceptedUnseen`).
- A southward diagonal step leaves wrong cells in the walk cache (`WalkCache.ShiftIsRight`).
- The centre of a mirrored or flipped area is right only for square patterns
  (`SpellArea.MirrorExact`, `SpellArea.FlipExact`).
- Rounds of damage exceed the amount when the first value is too large, and the default first
  value is too large for all amounts above 760 but 780 (`DamageRounds.GenerateDamageList`,
  `DamageRounds.DefaultStartExact`).
- A saved item comes back changed when it is not storable; for example, an item that has used
  up its charges comes back charged, and the imbuing slots are never kept because their
  attribute is in no type mask (`ItemAttributes.RereadExact`, src/item.h:288-293).
- On a tile, an item that waits to decay, or that could decay and does not, comes back decaying;
  one that decays comes back as it was if it has time left (`MapItems.ComesBackExactly`).
- A saved tree with an item whose type is gone, or has become a container or stopped being
  one, does not come back, because an unknown item leaves its bytes in the stream
  (`MapItems.KnownExactly`, `MapItems.UnknownLeavesItsBytes`).
- A decaying item decays up to 875 ms early, unless its duration is at most one tick or a
  whole number of seconds (`Decay.NeverEarly`, `Decay.EnrolledDecays`).
- The single empty root of an OTB file is refused (`Otb.RoundTrip`).

## Model

| member | source | states |
|---|---|---|
| Otb.ParseExact | src/fileloader.cpp:30-43 | a file is accepted, and gives a tree, if and only if it is an identifier (the wanted one or four zeros), that tree's bytes with balanced markers and every node's props ended, and plain bytes after it, and is long enough |
| Otb.RunSound | src/fileloader.cpp:53-105 | whatever the parser has consumed so far is exactly the encoding of its stack of unfinished nodes, each the last child of the one below |
| Otb.RunNode | src/fileloader.cpp:53-105 | the bytes of a node, wherever they stand, add that node and nothing else to the node on top of the stack |
| Otb.RoundTrip | src/fileloader.cpp:53-105 | encoding any tree and parsing it gives the tree back, except for the single empty root, which the size check refuses |
| Otb.EscapeUndone | src/fileloader.cpp:107-122 | unescaping undoes escaping, and escaped props hold no unescaped marker |
| Otb.LiftUndone | src/fileloader.cpp:107-122 | reading the props of every node of an encoded tree gives the original tree |
| Otb.BeginNode | src/fileloader.cpp:66-80 | a START marker ends the props of the current node if it has no child yet, and pushes a new last child of it, so that the stack stays a path of last children |
| Otb.EndNode | src/fileloader.cpp:81-88 | an END marker ends the props if no child did, and pops the node |
| Otb.ParseToken | src/fileloader.cpp:64-99 | one token of input moves the heap of nodes and the stack as the grammar's machine says, or stops when that machine does |
| Otb.ParseTree | src/fileloader.cpp:53-105 | the heap tree that is built is the parsed one, and there is none exactly when the input is not in the language |
| Otb.GetProps | src/fileloader.cpp:107-122 | the props of a node are its bytes without escapes; a node without props is an error |
| Otb.LoadedTree | src/fileloader.cpp:53-122 | reading a heap tree that was loaded from an encoded file, props and all, gives the tree that was encoded |
| Containers.Item.QueryAdd | src/container.cpp:264-324 | the verdict of every check in its order: locked, not pickupable, the container itself, inside the item (at whatever depth), full, and what the carrier says |
| Containers.Item.UpdateItemWeight | src/container.cpp:144-150 | a change of weight reaches the container and exactly the containers above it; the walk ends |
| Containers.Item.InternalAddThing | src/container.cpp:665-680 | the item becomes the first of the list, parent and list agree, every cached weight above is exact again, nothing else changes |
| Containers.Item.AddThing | src/container.cpp:475-494 | an index at or past the capacity changes nothing at all; any other puts the item in front |
| Containers.Item.UpdateThing | src/container.cpp:507-528 | the item's new type and count are in place and every weight above is exact; an item of another container changes nothing |
| Containers.Item.RemoveThing | src/container.cpp:554-587 | a partial removal reduces the stack, any other takes the item out, with exact weights above; an item of another container changes nothing |
| Containers.Item.ReplaceThing | src/container.cpp:530-552 | the new item is where the old one was, the old one is free, weights above are exact; a place that does not exist changes nothing |
| Containers.AboveIsShallower | src/container.cpp:264-324 | whatever holds an item lies strictly above it, so that upward walks end |
| Containers.Acyclic | src/container.cpp:264-324 | in every forest that the operations keep, no item is inside itself |
| Containers.WeightIsExact | src/container.cpp:144-155 | the cached weight of any item is the recursive sum of the weights of everything in it |
| Iteration.ExactlyOnce | src/container.cpp:689-722 | the full expansion of a container's contents holds every item inside it exactly once, and nothing else |
| Iteration.ContainerIterator.Advance | src/container.cpp:704-722 | an advance moves to the next item of the breadth-first order and never past the end of the walk |
| Iteration.Finished | src/container.cpp:689-722 | when the walk ends, it has visited everything inside the container exactly once, each item after the container that holds it was expanded |
| Iteration.GetItemHoldingCount | src/container.cpp:197-204 | the count is the number of items inside the container at any depth |
| Iteration.IsHoldingItem | src/container.cpp:206-214 | true exactly for the items inside the container at any depth |
| Stacks.PutExact | src/game.cpp:1225-1300 | auto-stacking adds exactly the units of a stack, touches no other kind, keeps stacks within 1 to 100, and takes a new slot only when the partial stacks cannot take everything |
| Stacking.QueryMaxCount | src/container.cpp:326-377 | the exact room: a hundred for each free slot and what is left on each partial stack of the kind, or the number of free slots for what does not stack; and the verdict for a count |
| Stacking.QueryRemove | src/container.cpp:379-399 | removal is allowed exactly for an item of the list, a count that is not 0 and not above its own, and an item that may move |
| Stacking.QueryDestination | src/container.cpp:401-468 | exactly where an addition goes: the parent, a container at the index, the first stack of the kind that is not full, the item at the index, or the index itself, which past the capacity is none unless there are pages |
| Stacking.DestinationBounds | src/container.cpp:401-468 | an item to go onto is the one at the index; an unlocked container without pages and within its capacity never yields an index past it |
| Stacking.PartialExists | src/game.cpp:1225-1300 | a container that accepted the total has a free slot once no partial stack is left, so that the last step cannot fail |
| Stacking.StillAccepts | src/game.cpp:1225-1300 | after part of a stack went on a partial one, the container still accepts the rest: the recursion never fails |
| Stacking.InternalAddItem | src/game.cpp:1225-1300 | all or nothing: on an error or in a test nothing changes; otherwise the list is what auto-stacking makes of it and nothing remains |
| Stacking.CapacityKept | src/game.cpp:1225-1300 | an accepted item never takes a container over its capacity or a stack over a hundred, and adds exactly its units |
| Moving.ResolveDestination | src/game.cpp:1054-1067 | exactly where the walk through containers ends: each step from the last destination, flags only for the first one, at most 16 floors |
| Moving.TakeExact | src/container.cpp:554-587 | what is taken from a list and what is left are together what was there |
| Moving.GiveExact | src/container.cpp:475-528 | what a list gains is what was given, but for what is lost past its capacity |
| Moving.LossExactly | src/container.cpp:475-494 | given where a stack goes, units are lost if and only if the index lies at or past the capacity and the stack there cannot take them all |
| Moving.LossAtCall | src/game.cpp:1043-1216 | the same as seen by the caller, from the index asked for: a call that stays in its container loses units if and only if a stack found automatically lies past the capacity and is too full, or the container has pages and the index lies past its capacity with no stack there that takes them all |
| Moving.InternalMoveItem | src/game.cpp:1043-1216 | the amount and the destination are exactly those that the queries give; either nothing changes, or source and destination are the lists that one transfer gives, and all other lists, kinds and counts stay; the forest and the bounds of all stacks stay sound, so that moves follow each other; with a limit and without pages the index is below the capacity and the destination within it |
| Moving.MovedConserves | src/game.cpp:1043-1216 | a move conserves the units of every kind over source and destination, also within one container, exactly but for what is lost, and keeps every stack within bounds |
| Moving.BetweenConserves | src/game.cpp:1043-1216 | the same between two containers: what one loses the other gains, up to the loss |
| Moving.InsideConserves | src/game.cpp:1043-1216 | the same inside one container |
| Moving.MovedSize | src/game.cpp:1043-1216 | when what is moved fits, the destination's list does not outgrow its capacity |
| ItemExchange.SlotNeeded | src/game.cpp:2722-2724 | a move that may not stack moves something if and only if its destination has a free slot, though a trial addition has already passed |
| ItemExchange.ExchangeItems | src/game.cpp:2707-2731 | the first item moves if and only if the trials pass and, before the exchange, its destination has a free slot, it may move and the destination is not in the other item; the second if and only if besides its own destination has a slot after the first item has left and it may move; unless the first moves, nothing changes |
| FullContainers.MovePastCapacity | src/game.cpp:1043-1216 | any item that is moved to an index past the capacity and the end of a container with pages is in no list afterwards, and the answer is that all is well |
| FullContainers.PageLosesCoins | src/game.cpp:1043-1216 | five coins moved to the second page of a container like a depot chest, with 32 slots, are gone |
| FullContainers.SwordForNothing | src/game.cpp:2707-2731 | an exchange in which every trial passes, the sword goes over, and the five coins for it stay where they are, because they fitted only on a partial stack |
| PlayerItems.SaveItems | src/iologindata.cpp:708-766 | the rows are the forest in breadth-first order, numbered from 101, each with the id of its container's row |
| PlayerItems.OneOrder | src/iologindata.cpp:708-766 | a forest has only one breadth-first order with parents first: the rows of a save are determined |
| PlayerItems.SavedRows | src/iologindata.cpp:708-766 | ids are unique and above 100, and every row's id exceeds its parent's |
| PlayerItems.ContentsUnder | src/iologindata.cpp:708-766 | filed under the id of an item are exactly its contents, in their order |
| PlayerItems.LoadItems | src/iologindata.cpp:1140-1164 | one new item for each row, with that row's columns and nothing in it |
| PlayerItems.Place | src/iologindata.cpp:582-603 | one row puts its item in front of its container or slot, and all weights stay exact |
| PlayerItems.Load | src/iologindata.cpp:575-603 | after all rows every container and slot lists the items of the rows filed under it, and the forest is sound |
| PlayerItems.TreeRestored | src/iologindata.cpp:575-603 | after a load of saved rows, the item of every row is again the whole tree that was saved there |
| PlayerItems.SlotsRestored | src/iologindata.cpp:549-603 | every slot holds again the same trees in the same order, and each item's cached weight is the true weight of its tree |
| PlayerItems.SaveAndLoad | src/iologindata.cpp:977-995 | saving and loading any forest runs through and gives a state to which the two lemmas above apply |
| PropStreams.PropStream.Read | src/fileloader.h:102-111 | a word is read whole, lowest byte first, or the stream stays where it is |
| PropStreams.PropStream.ReadString | src/fileloader.h:113-130 | a string is read with its length, or the read fails |
| PropStreams.PropWriteStream.WriteString | src/fileloader.h:169-179 | a string is written with its length; one of more than 65535 bytes is written as an empty one |
| PropStreams.TakeWordBack | src/fileloader.h:164-167 | reading a written word gives it back and leaves what follows |
| PropStreams.TakeTextBack | src/fileloader.h:113-130 | reading a written string gives it back, or the empty string if it was too long |
| PropStreams.SignedUnsigned | src/fileloader.h:164-167 | casting a number to an unsigned word and back gives it back if it fits |
| ItemAttributes.SerializeAttr | src/item.cpp:671-787 | the fields that an item writes, in their order |
| ItemAttributes.UnserializeAttr | src/item.cpp:652-664 | reading goes field by field to the end tag, the end of the stream, the contents of a container or an unknown tag |
| ItemAttributes.ReadsBack | src/item.cpp:652-664 | the reader takes each written field as it was written and is left exactly at what follows |
| ItemAttributes.TablesAgree | src/item.cpp:371-787 | for every tag the reader expects the width that the writer writes, and stores it in the attribute that the writer took |
| ItemAttributes.RestoredAt | src/item.cpp:371-650 | what each attribute is after all fields were read: its own field's value, or what a new item of the type has |
| ItemAttributes.KeyExact | src/item.cpp:371-650 | one attribute comes back exactly if it is storable under the writer's and the reader's type: for instance an action id of at least 100 on a moveable item, a date that is not 0, a duration that is not negative or, without one, a type without a default |
| ItemAttributes.SubTypesExact | src/item.cpp:331-369 | count, charges and fluid come back exactly if the reader's type has the one of them that the writer's type has put in its fields, and it fits; an item with no charges left on a type with charges comes back charged |
| ItemAttributes.RereadExact | src/item.cpp:671-787 | an item that is written as one of a type and read as one of the same or another type comes back as it was, but for its contents, if and only if it is storable, as can be checked attribute by attribute before it is saved |
| MapItems.SaveItem | src/iomapserialize.cpp:217-235 | the bytes of an item: id, fields, and for a container the number of its items and each of them, last first |
| MapItems.LoadItem | src/iomapserialize.cpp:134-165 | loading an item does what the grammar says, errors at any depth included; once it lies on a tile, what is in it starts to decay |
| MapItems.LoadContainer | src/iomapserialize.cpp:116-132 | the announced number of items is loaded, each put in front, and an end byte must follow |
| MapItems.StartDecay | src/game.cpp:4470-4488 | an item that can decay and does not yet starts, or is due at once if it has no time left; any other stays as it is |
| MapItems.StartDecaying | src/container.cpp:682-687 | a container starts everything in it, in order and at any depth, but not itself |
| MapItems.NothingStarts | src/item.cpp:1700-1716 | in a container that lies on no tile nothing starts, at whatever depth: the starts that come with each nested item have no effect |
| MapItems.ParseSaved | src/iomapserialize.cpp:134-165 | a tree of any depth that was saved under one type table and is loaded under another, which knows all its items, is consumed exactly and gives the restored tree with all orders preserved |
| MapItems.ParseSavedContents | src/iomapserialize.cpp:116-132 | writing from the last to the first and putting in front cancel out |
| MapItems.LeafSettled | src/item.cpp:1700-1716 | a single item that was read and has started to decay is what it was if and only if it lasts: a decaying one is read as pending, but starts again |
| MapItems.SettledExact | src/iomapserialize.cpp:217-235 | the restoration of a tree that has settled on a tile is the tree, with nothing due, if and only if every item in it lasts |
| MapItems.KnownExactly | src/iomapserialize.cpp:134-165 | for any two type tables, the bytes of a tree saved under the one are loaded under the other as its restoration, and consumed exactly, if and only if that one knows every item of it, at any depth, as what it was |
| MapItems.ComesBackExactly | src/iomapserialize.cpp:134-165 | for any two type tables, a tree that is saved and loaded onto a tile is there as it was, with nothing due to decay at once, if and only if every item of it is known and lasts: it keeps its id and is storable, and if its type decays it was decaying with time left |
| MapItems.UnknownLeavesItsBytes | src/iomapserialize.cpp:134-151 | an item whose type is gone, whatever type it was written with, takes only its id from the stream: the load succeeds, and its other bytes are left to be read as the next item |
| Market.StepConserves | src/game.cpp:5205-5264 | no step of any kind makes or loses gold or units, but for what a settled row exceeds its live offer by and for what an inbox refuses |
| Market.StepKeeps | src/iomarket.cpp:283-305 | every step keeps balances and stocks at least 0, every id live or closed and exactly once, and scanned rows equal to their live offers but for a larger amount |
| Market.RunConserves | src/game.cpp:5340-5540 | over any run gold and units of a ware change by exactly the drift and the refusals, and a closed offer stays closed |
| Market.DriftIsTheExcess | src/iomarket.cpp:120-192 | the drift of a settlement is exactly price times the scanned amount minus the live amount, in gold for a buy offer and in units for a sell offer, and never negative |
| Market.StaysUpToDate | src/iomarket.cpp:194-208 | from books whose scanned rows are current, they stay current exactly unless a partial acceptance cuts a scanned offer, and nothing drifts |
| Market.NoDrift | src/iomarket.cpp:120-208 | over any run without a partial acceptance between a scan and its settlement, gold is constant and units change only by refusals |
| Market.CutThenSettle | src/iomarket.cpp:171-185 | with one, the settlement of a live offer creates exactly what was dealt in between: its price in gold for a buy offer, its units for a sell offer |
| Market.LiveIsOnce | src/iomarket.cpp:283-305 | a live offer's id is not closed and no other live offer has it |
| MarketPlace.GetMarketItemList | src/game.cpp:5967-6006 | the marketable items of a ware in the order of the search, as few as are enough; none exactly if there is not enough |
| Searches.GetMarketItemList | src/game.cpp:5967-6006 | the search of a locker through nested containers lists the wares of just so much of a complete walk as is enough, the last one first; none if and only if the whole locker does not hold enough |
| MarketPlace.RemoveItems | src/game.cpp:5235-5250 | exactly the amount is taken from the listed items, and nothing else |
| MarketPlace.TakeWares | src/game.cpp:5229-5251 | taking wares succeeds exactly if enough can be found, and takes exactly the amount of that ware |
| MarketPlace.Deliver | src/game.cpp:5303-5328 | single items or stacks of 1 to 100 of the ware are appended, and nothing else; they add up to the amount, or to as much as the inbox has room for |
| MarketPlace.MarketPlace.CreateMarketOffer | src/game.cpp:5158-5264 | an offer is made exactly under all its conditions, with its fee and its escrow; otherwise nothing happens |
| MarketPlace.MarketPlace.CancelMarketOffer | src/game.cpp:5276-5338 | only the owner closes an offer, and gets back what it holds |
| MarketPlace.MarketPlace.AcceptMarketOffer | src/game.cpp:5340-5540 | a deal is done exactly under its conditions; money and goods change hands, and the offer shrinks or closes |
| MarketPlace.MarketPlace.CheckExpiredOffers | src/iomarket.cpp:194-208 | a scan lists the offers that are old enough and changes nothing else |
| MarketPlace.MarketPlace.ProcessRow | src/iomarket.cpp:120-192 | a row whose offer is gone has no effect; any other closes the offer and returns what the row says |
| MarketPlace.MarketPlace.ProcessExpiredOffers | src/iomarket.cpp:120-192 | settling a scan is settling its rows one after the other, each exactly once |
| MarketPlace.AllConsistent | src/iomarket.cpp:283-305 | the books of every ware are consistent if those of one are |
| Trade.PartnersAgree | src/game.cpp:2626-2657 | a player has a partner exactly while trading, never the player himself, and the partner's partner is the player; the transfer state is never seen between steps |
| Trade.StepKeeps | src/game.cpp:2517-2758 | every request, acceptance and closing keeps both sides of every trade in agreement, the table of offered items exact, one reference for each, and offered items apart from each other |
| Trade.NothingIsKept | src/game.cpp:2857-2899 | when nobody trades, every reference ever taken has been released and no item is on offer |
| Trade.HandsChange | src/game.cpp:2659-2758 | items change hands only when a player accepts whose partner has accepted, both with an item and every check passed; the first item goes to the partner, the second comes back only if its own move succeeds |
| Trade.AcceptedBefore | src/game.cpp:2679-2681 | whoever is in the accepted state has accepted at a step of the run, and nothing about that side has changed since |
| Trade.BothHaveAccepted | src/game.cpp:2683-2758 | in any run that began with nobody trading, an exchange is preceded by the other player's acceptance, after which that player's side has not changed; the offer it was given for is the one that is exchanged if and only if there was an offer at that time |
| Trade.AcceptedUnseen | src/game.cpp:2679-2681 | a run in which one player accepts while the other offers nothing yet, and is then held to what the other offers afterwards |
| TradeGame.Game.IsBeingTraded | src/game.cpp:2577-2611 | an item is refused exactly if it, something in it or something around it is on offer |
| TradeGame.Game.RequestTrade | src/game.cpp:2517-2657 | the players' fields change as the request step says |
| TradeGame.Game.InternalStartTrade | src/game.cpp:2626-2657 | a first offer or the answer to one, or no change if either player is busy with another |
| TradeGame.Game.AcceptTrade | src/game.cpp:2659-2758 | the players' fields, the table of items and the items' places change as the acceptance step says |
| TradeGame.Game.CloseTrade | src/game.cpp:2847-2855 | the players' fields change as the closing step says |
| TradeGame.Game.InternalCloseTrade | src/game.cpp:2857-2899 | both sides are reset and their items released, unless a transfer is under way |
| WalkCache.ShiftIsRight | src/creature.cpp:490-570 | the shifted cache equals a fully read one on every cell but the creature's own, for every world, if and only if the step is at most one tile each way and not a southward diagonal |
| WalkCache.SouthDiagonalIsRightBetween | src/creature.cpp:507-566 | after a south-eastern or south-western step the rows between the first and the last are right, and of those two only one cell each |
| WalkCache.Creature.OnMove | src/creature.cpp:489-570 | every cell after a step holds the freshly read tile or the old cell that the two shifts bring there |
| WalkCache.Creature.Walk | src/creature.cpp:451-570 | a right cache stays right over a good step, a teleport and a change of floor |
| WalkCache.Creature.OtherMoved | src/creature.cpp:571-584 | a right cache stays right when another creature moves |
| WalkCache.Creature.TileChanged | src/creature.cpp:365-390 | a right cache stays right when a tile changes |
| WalkCache.Creature.LoadMap | src/creature.cpp:294-308 | a loaded cache is right |
| WalkCache.Creature.UpdateMapCache | src/creature.cpp:294-308 | every cell shows its tile |
| WalkCache.Creature.GetWalkCache | src/creature.cpp:327-356 | from a right cache the answer in range is whether the tile can be walked on; out of range it is 2, on another floor 0 |
| ConditionStream.SaveConditions | src/iologindata.cpp:790-797 | the stream is that of the persistent conditions, each with its end tag |
| ConditionStream.LoadConditions | src/iologindata.cpp:361-374 | the list that the loader's grammar gives, conditions that fail to load being skipped |
| ConditionStream.UnserializeProps | src/condition.cpp:51-60 | fields are read up to the end tag, the end of the stream, or the first one that the condition does not know or cannot read |
| ConditionStream.CreateCondition | src/condition.cpp:204-253 | the five header fields in their fixed order, or nothing |
| ConditionStream.FieldsBack | src/condition.cpp:111-127 | for every kind of condition, its own fields are read by the condition created in its place and restore it |
| ConditionStream.SkillsBack | src/condition.cpp:368-391 | the skills come back one by one in their places |
| ConditionStream.IntervalsBack | src/condition.cpp:930-973 | the rounds of damage come back in order, and their lengths add up to the ticks |
| ConditionStream.HeaderBack | src/condition.cpp:204-253 | a written header creates a condition of the same type, id, ticks, buff and sub-id, damage starting without ticks |
| ConditionStream.LoadSaved | src/iologindata.cpp:361-374 | for any list of conditions of any kinds, loading what was saved gives the persistent ones restored, in the reverse order |
| ConditionStream.RestoredExact | src/condition.cpp:930-973 | a restored condition is the saved one if and only if, for damage, its ticks were the sum of its rounds and, for attributes, its reading positions stood behind the last skill and stat |
| DamageRounds.CloserIsCloser | src/condition.cpp:1274-1276 | the comparison of the two relative distances is the comparison of twice the damage with twice the share |
| DamageRounds.GenerateDamageList | src/condition.cpp:1259-1277 | the list falls, has a round of every value from the first to 1, as many of each as bring the damage closest to its share, and is worth the amount, or half of start times (start + 1) if that is more: so exactly the amount if and only if start times (start + 1) is at most twice the amount |
| DamageRounds.DefaultStartExact | src/condition.cpp:1030-1034 | with the default first value the whole is dealt exactly for amounts up to 760 and for 780, and is exceeded for all others |
| DamageRounds.ConditionDamage.AddDamage | src/condition.cpp:989-1019 | rounds of at least a second each, and ticks that grow with them unless the condition has no end |
| DamageRounds.ConditionDamage.Init | src/condition.cpp:1021-1046 | ticks are the number of rounds times the larger of the interval and a second, and the damage is that of the list |
| ConditionLedger.TotalIsSum | src/creature.cpp:1154-1187 | speed, every skill and every stat are what they are without conditions plus the sum of the live conditions' bonuses |
| ConditionLedger.TotalWithout | src/creature.cpp:1198-1286 | ending one condition leaves exactly the bonuses of the others, whatever the order |
| ConditionLedger.TotalUpdate | src/condition.cpp:344-366 | ending the old bonuses and starting the new ones is replacing the one by the other |
| ConditionLedger.Creature.AddCondition | src/creature.cpp:1154-1187 | a new key starts a condition at the end of the list, or none if it does not start; a known one merges in its place, damage by what it is worth and any other by its time; keys stay unique and every bonus is counted once; haste waits for a paralysis |
| ConditionLedger.Creature.MergeInto | src/condition.cpp:344-366 | a merge takes over ticks and bonuses, or nothing if the old condition lasts longer or, for damage, is worth as much |
| ConditionLedger.Creature.RemoveCondition | src/creature.cpp:1198-1252 | exactly the conditions of the type (and id) go, in any number, with exactly their bonuses; a paralysis may wait |
| ConditionLedger.Creature.ExecuteConditions | src/creature.cpp:1308-1326 | exactly the conditions that have run out end, with their bonuses; the others' ticks go down |
| ConditionLedger.Creature.SetVarSkill | src/player.h:529-531 | a bonus from elsewhere changes the original and leaves the conditions' bonuses as they are |
| ConditionLedger.Creature.NothingIsLeft | src/condition.cpp:481-511 | without conditions every variable is the original |
| SpellArea.CreateArea | src/combat.cpp:1209-1240 | cell by cell the pattern of the list's whole rows, and the last mark of a centre as its centre, for every list that writes no hit outside of the matrix |
| SpellArea.RotateArea | src/combat.cpp:1158-1206 | every write is in bounds, and an offset is hit exactly if the offset turned back is hit in the original |
| SpellArea.MirrorArea | src/combat.cpp:1140-1148 | the pattern is mirrored about a column that is worked out from the number of rows |
| SpellArea.FlipArea | src/combat.cpp:1149-1157 | the pattern is flipped about a row that is worked out from the number of columns |
| SpellArea.MirrorExact | src/combat.cpp:1140-1148 | mirroring reflects a pattern about its centre if and only if it is square or hits nothing |
| SpellArea.FlipExact | src/combat.cpp:1149-1157 | the same for flipping |
| SpellArea.SquareReflections | src/combat.cpp:1337-1365 | for a square pattern north-east, south-west and south-east are its reflections in x, in y and in both |
| SpellArea.AreaCombat.SetupArea | src/combat.cpp:1242-1265 | east, south and west are the pattern for north turned by 90, 180 and 270 degrees about its centre |
| SpellArea.AreaCombat.SetupExtArea | src/combat.cpp:1337-1365 | the pattern for north-west is made from the list, and the other three are its mirror image, its flipped image and the mirror image of that |
| SpellArea.AreaCombat.GetList | src/combat.cpp:1096-1125 | exactly the visible tiles under the pattern for the direction of the target, each once |
| Decay.DecaysInTime | src/game.cpp:4504-4546 | an item stays on the wheel for exactly the number of ticks that its bucket and its duration say |
| Decay.EnrolledDecays | src/game.cpp:4629-4650 | an item that has got its bucket decays after exactly 4 ticks for each full second, and one more for less than a second or a remainder of at least 875 ms: less than 875 ms early, and never later than its duration or one tick |
| Decay.NeverEarly | src/game.cpp:4504-4546 | the lifetime covers the duration if and only if that is at most 250 ms or a whole number of seconds |
| Decay.OnlyTicksCount | src/game.cpp:4504-4546 | for an item in a bucket nothing but ticks matters, whatever else happens in between |
| Decay.LivesThrough | src/game.cpp:4504-4546 | in any run of ticks, cleanings and enrolments, a newly enrolled item is on the wheel for its lifetime in ticks, and for one tick more if a tick and not a cleaning has given it its bucket |
| Decay.FixedLeaves | src/game.cpp:4512-4518 | in any run of events an item that can no longer decay stays unchanged until its bucket is looked at, and then leaves |
| Decay.Wheel.StartDecay | src/game.cpp:4470-4488 | an item that can decay and does not yet is enrolled once, with one reference, or decays at once if it has no time left |
| Decay.Wheel.CheckDecay | src/game.cpp:4504-4546 | in one tick every item does what it would do alone; it waits in exactly one list until it decays, and its reference is released exactly then |
| Decay.Wheel.Run | src/game.cpp:4470-4546 | after any run of ticks, cleanings, enrolments and items that can no longer decay, every item that was on the wheel is where it would be alone: a new one is there if and only if fewer ticks have passed than its lifetime (one more if a tick gave it its bucket), any other exactly while it has ticks left; those that are gone have decayed, except for fixed ones, which leave when their bucket is looked at; none comes back |
| Decay.Wheel.Cleanup | src/game.cpp:4642-4650 | new items get the bucket that suits their duration |
| Money.CoinsAreWorth | src/game.cpp:1494-1533 | an amount is paid out in stacks of at most a hundred coins that are worth exactly the amount |
| Money.Purse.AddMoney | src/game.cpp:1494-1533 | the stacks of an amount go to the purse, and to the floor where they do not fit |
| Money.Purse.FindMoney | src/game.cpp:1425-1467 | all stacks of coins, the cheapest first, and what they are worth together |
| Searches.FindCoins | src/game.cpp:1429-1463 | the search through everything that somebody carries, with its own queue of containers, finds exactly the coins in a complete walk, and counts what they are worth as a purse |
| Searches.WalkedOnce | src/game.cpp:1447-1463 | a complete walk meets everything inside the cylinder, at any depth, exactly once |
| Searches.QueueIsShort | src/game.cpp:1447-1463 | the queue of containers is never longer than there are items, so that the search ends although it grows |
| Money.Purse.RemoveMoney | src/game.cpp:1415-1492 | payment is refused without change exactly if the purse is not worth it; otherwise purse and floor lose exactly the price |
| Money.Purse.Pay | src/game.cpp:1470-1491 | the loop always ends with the rest paid exactly: the cheapest stacks go whole, at most one stack is broken, and the change is less than one of its coins |
| Money.BreakStack | src/game.cpp:1478-1484 | breaking a stack takes the fewest coins that cover the rest, and not more than there are |
| Money.ChangeIsSmaller | src/game.cpp:1482-1482 | the change consists of smaller coins than the one that was broken, so that it cannot land on the broken stack |

## Left out

- Lua events, database queries, sockets, timers and client messages: events answer yes or no, the database is maps and rows, time is a parameter.
- Player and Tile as cylinders: a carrier's verdict on an added item is a parameter; slots, floors and house tiles are not modelled.
- The parents of depot chests, inboxes and reward chests, browse fields and the exemption of reward containers from capacity: containers here are plain ones, paginated or not.
- Containers.Item.QueryAdd: the flag FLAG_CHILDISOWNER is how a container asks the outermost one, whose answer is the parameter `carrier`; the refusal inside an inbox is not modelled.
- Containers.Item.UpdateThing: fluids and charges are part of an item's attributes here, not of its count.
- Stacking.InternalAddItem: only additions without an index (INDEX_WHEREEVER) are followed.
- Moving.InternalMoveItem: equipment exchange (NEEDEXCHANGE), moves to tiles and FLAG_IGNORENOTMOVEABLE, which only scripts set for a move, are not modelled.
- ItemExchange.SlotNeeded: the destination is a plain container without pages, where the source passes a player.
- ItemExchange.ExchangeItems: both destinations are plain containers without pages; a player, whose slots and backpack are searched first, is not one.
- FullContainers.SwordForNothing: the same; the containers stand in for the two players.
- FullContainers.MovePastCapacity: a depot chest's own limit of items is not modelled.
- PlayerItems.Place: the rule that an occupied inventory slot refuses a second item is not modelled, because a save has one root for each; depots are modelled, with any number of roots for each slot.
- PlayerItems.Load: as for PlayerItems.Place. An item's attributes are opaque here; ItemAttributes has them.
- PlayerItems.LoadItems: all item types still exist; rows of other types, which are skipped, are not modelled.
- PlayerItems.SaveItems: a container's capacity is a constant for all types, because it is not saved.
- MapItems.LoadItem: items are values, not heap objects; the heap side of adding in front is proved in Containers and PlayerItems. The branch for stationary map items, beds, doors, teleports and depot ids are not modelled, and neither is what an item that decays at once turns into: it is handed on.
- ItemAttributes: what the derived classes add (doors, beds, teleports, depot lockers) is only skipped, as plain items skip it.
- MarketPlace.MarketPlace.CreateMarketOffer: the fee is computed exactly, where the source divides in floating point and can charge one gold less; premium accounts, Tibia coins and whether the player stands at a market are not modelled.
- MarketPlace.GetMarketItemList: a locker is the flat list of its items in the order of the search; Searches.GetMarketItemList does the walk through nested containers.
- MarketPlace.MarketPlace.CancelMarketOffer: Tibia coins, and item types that no longer exist, are not modelled.
- MarketPlace.MarketPlace.AcceptMarketOffer: Tibia coins and owners that cannot be loaded are not modelled.
- MarketPlace.MarketPlace.ProcessRow: owners that cannot be loaded are not modelled.
- MarketPlace.Deliver: delivered stacks are appended as they are; how an inbox merges them is not modelled, and neither are offers of players who were deleted.
- Market: wares stand for their item types one to one.
- Trade.StepKeeps: which items are inside which is fixed for a run; that moving an offered item closes its trade, and distances and line of sight, are not modelled.
- Trade.HandsChange: the results of the trials and moves are parameters here; ItemExchange works them out for plain containers.
- TradeGame.Game.RequestTrade: distance, line of sight and the checks of the item are one parameter.
- TradeGame.Game.AcceptTrade: the results of the test additions, removals and moves are parameters.
- WalkCache: positions are unbounded integers, so that the edge of the map, where coordinates wrap, is not modelled.
- ConditionStream: percentages, damage ranges and owners are not part of the stream and not of the model; more skills than there are places, which the source would write past its array, are dropped; rounds of damage last for some time.
- ConditionLedger.Creature.AddCondition: whether damage outweighs what is left of earlier damage is a parameter, and the ticks are those of rounds that are there already; DamageRounds works rounds out.
- ConditionLedger: effects without bonuses (outfits, light, invisibility, damage) have no state here; percentages are exact fractions rounded towards zero; the random part of a speed formula is a parameter.
- DamageRounds: the comparison in floating point is one of exact fractions; the random amount is a parameter.
- SpellArea.CreateArea: a list with a hit behind its last whole row, for which the source writes outside of its matrix, is excluded; lengths, spreads and radii only make lists and are not modelled.
- SpellArea.AreaCombat.SetupArea: a list whose centre is marked behind its last whole row is excluded as well.
- Decay: the item that a decayed item turns into is enrolled by a call of its own.
- Money.Purse.FindMoney: a purse is the flat list of stacks that Searches.FindCoins walks through; how added coins merge with others is not modelled, because merging does not change worth.
- Fixed-width overflow: values are assumed to be in range, except where words are written to streams.
- Base32 secrets, pathfinding, combat formulas, light, chat, beds, bans and the game store: finite, opaque or with little structure.
