# Models of the game server's data structures

Dafny models of the self-contained data structures and algorithms of a
multiplayer game server written in C++, with proofs of what they promise. Code
that works by changing objects in place is modelled by classes, arrays and
loops; every method is tied to a function or predicate that says what it does,
and the promises are proved about those.

| file | what it models |
|---|---|
| `Common.dfy`, `Forest.dfy` | helpers; finite trees of nested items |
| `Items.dfy` | item types, attribute values, subtypes, and how an item is created |
| `ItemRows.dfy`, `LoginData.dfy` | a player's items as database rows: breadth-first saving, loading by replaying the rows |
| `FileLoader.dfy` | the binary tree format with escape bytes, and its parser over an explicit stack |
| `MapSerialize.dfy` | the byte encoding of items in houses: streams, attribute codec, nested containers |
| `Containers.dfy`, `Moves.dfy`, `MoveResults.dfy` | the live container tree with cached weights; moving, splitting and merging stacks, and what that comes to |
| `Iteration.dfy` | the breadth-first iterator and what counts on it |
| `DepotChest.dfy`, `DepotLimit.dfy` | whom the depot's item limit is asked of; when a move keeps it |
| `ItemAttributes.dfy` | the attribute list with its bit mask |
| `Decay.dfy` | the timing wheel for decaying items |
| `Trade.dfy` | trading between players |
| `Damage.dfy`, `Speed.dfy` | conditions: damage over time, haste and paralysis |
| `WalkCache.dfy` | the cache of walkable tiles around a creature |
| `Area.dfy` | areas of spells: turning, reflecting, waves, laying them over the map |
| `Money.dfy` | paying with coins and giving change |

The main results are statements over every input, every run or every reachable
state: round trips of the three formats; the agreement of cached and recursive
weights; conservation of items and of money; the wheel firing each item at the
tick fixed when it entered; the trade invariants over any run; exact conditions
where a promise does not always hold.

## Where the code does not do what it seems to

Each is stated as an exact condition, with a concrete input where one is useful.

- A damage list sums to the amount if and only if the amount is at least
  start*(start+1)/2; the default start meets this up to 760, and at 780
  (`Damage.GenerateDamageList`, `Damage.DefaultStartExact`).
- Damage over time ends with entries left when intervals are not whole seconds
  and rounding them up to thinks takes too long (`Damage.ConditionDamage.RunOut`,
  `Damage.ConditionDamage.EndsEarly`).
- After a step south-east or south-west the first and last row of the walk cache
  are off by one tile, because a distance is used where an offset is meant
  (`WalkCache.Creature.OnCreatureMove`).
- Mirroring and flipping an area place the centre by rows for columns and the
  other way round, which is right for square drawings only
  (`Area.MirroredIffSquare`, `Area.FlippedIffSquare`).
- Handing out money multiplies in 32 bits; amounts whose crystal coins overflow
  are short but for a few (`Money.AddMoney`, `Money.ShortChange`).
- A chest's item limit is asked about only by the chest itself and by containers
  whose top parent it is; in a locker a bag in a full chest still takes items
  (`DepotLimit.MoveItem`, `DepotChest.TopParentIff`, `DepotLimit.OverLimit`).
- Merging onto a stack, even a full one, renews its duration and decay state, and
  a new stack without attributes gets those of a created item, so that a kind told
  by id and attributes is conserved only on undisturbed stacks
  (`Moves.CarryOut`, `Moves.ConservedIff`, `Moves.DisturbedRun`).
- Twelve plain item types come back from the database as other types, and an item
  that has used up its charges comes back with all of them (`LoginData.UnchangedIff`,
  `LoginData.RingReplaced`, `LoginData.Recharged`).
- A file whose root has neither properties nor children is too short for the
  loader (`FileLoader.RoundTrip`).
- A player may accept a trade while the other side has offered nothing, and the
  acceptance stands when an offer follows; a player who accepts before offering
  anything can never offer, and that trade fails (`Trade.Game.BothOffered`,
  `Trade.Game.NoOfferFollows`, `Trade.AcceptedUnseen`, `Trade.AcceptedEmpty`).

## Model

| member | source | states |
|---|---|---|
| `ItemRows.SaveItems` | compiler/src/iologindata.cpp:587-645 | The rows flatten the forest: ids run from 101 up, every row names an id smaller than its own or a slot, each slot and each item has below it exactly its own trees in order, and there is one row per item, holding its id, subtype and attributes. |
| `ItemRows.WriteRecord` | compiler/src/iologindata.cpp:598-607 | A row holds the id of its item, the subtype, whichever attribute that is for the type, and exactly the attribute bytes. |
| `ItemRows.SaveContents` | compiler/src/iologindata.cpp:618-641 | Writing one queued container keeps the breadth-first invariant: what is written below an id is nothing while its container waits and all its contents, in order, once it has left. |
| `LoginData.CreateItem` | compiler/src/iologindata.cpp:992-997 | The item is created from id and subtype, ids replaced where the source replaces them, and its attributes are read onto it as far as they go; it is in play, on its own and empty. |
| `LoginData.LoadItems` | compiler/src/iologindata.cpp:978-1002 | The map holds exactly the rows whose type is known, the later of two with the same id, each with its parent id and an item as its row reads, attributes included; the items are in play and on their own, and the world of links and weights stays valid. |
| `LoginData.RowBack` | compiler/src/item.cpp:630-755 | Reading the row of an item gives the item with exactly its persisted attributes, under the id it is created with. |
| `LoginData.AttachItems` | compiler/src/iologindata.cpp:433-483 | Replaying the map from the highest id down with insertion at the front leaves every container with its children, and every slot with its roots, in ascending order of id; a taken inventory slot keeps the first to come. Parent links, lists and cached weights are right afterwards. |
| `LoginData.ChildrenAreUnder` | compiler/src/iologindata.cpp:433-483 | The ids that name a parent, in ascending order, are the items the save wrote below it, in order. |
| `LoginData.Rebuilt` | compiler/src/iologindata.cpp:429-483 | After loading, every item stands for the very tree its row was written for, as it comes back, at every depth. |
| `LoginData.RebuiltSlot` | compiler/src/iologindata.cpp:461-470 | What hangs at a slot stands for what was saved from it. |
| `LoginData.KeptAll` | compiler/src/iologindata.cpp:978-1002 | Distinct ids of known types lose no row and invent none. |
| `LoginData.SaveAndLoad` | compiler/src/iologindata.cpp:429-483 | Saving and loading gives back, at every slot, live items standing for exactly the trees saved from it, every item with its created id, count and persisted attributes, in the same order at every level, for inventory slots and for depots with several roots; and a world in which all parents and cached weights are right. |
| `LoginData.UnderBack` | compiler/src/iologindata.cpp:978-1002 | Reading the rows below an id one by one is reading what was saved below it. |
| `LoginData.UnchangedIff` | compiler/src/item.cpp:369-755 | What comes back is what was saved if and only if, at every depth, no plain item is of one of the twelve replaced types and every attribute, the subtype included, meets its own condition for surviving. |
| `LoginData.Recharged` | compiler/src/item.cpp:152-158 | An item of a charged type that has used up its charges comes back with all of them. |
| `LoginData.RingReplaced` | compiler/src/item.cpp:71-82 | Each of the twelve replaced types, saved from the ring slot, comes back as its successor: 2202 to 2206 as 2165 to 2169, 2210 to 2212 as 2207 to 2209, 2215 and 2216 as 2213 and 2214, 2640 as 6132, 6301 as 6300. |
| `LoginData.BareRow` | compiler/src/item.cpp:49-51 | A row of a stack without attributes gives as many pieces as it says, and one piece if it says none. |
| `FileLoader.ParseTree` | compiler/src/fileloader.cpp:53-105 | The stack loop computes the functional parser: it fails on the same files, and otherwise returns nodes standing for the same tree. |
| `FileLoader.StartNode` | compiler/src/fileloader.cpp:66-80 | Opening a node keeps the stack a chain of last children, so the pointers on it stay valid. |
| `FileLoader.EndNode` | compiler/src/fileloader.cpp:81-88 | Closing a node keeps the rest of the stack a chain of last children and makes the node a finished child of its parent. |
| `FileLoader.GetProps` | compiler/src/fileloader.cpp:107-122 | Yields the unescaped bytes of a node's range, and nothing for an empty range. |
| `FileLoader.AcceptsBalanced` | compiler/src/fileloader.cpp:61-105 | A file is accepted exactly when its start and end bytes, outside escapes and type bytes, are balanced: none is missing, and no node ends or starts outside the root. |
| `FileLoader.ParseSafe` | compiler/src/fileloader.cpp:53-105 | In any accepted file every node's property range lies inside the file, and children lie inside their parents. |
| `FileLoader.ScanTree` | compiler/src/fileloader.cpp:64-99 | Scanning the bytes of a node attaches exactly that node to the open node on top, whatever surrounds it. |
| `FileLoader.UnescapedEscaped` | compiler/src/fileloader.cpp:107-122 | Unescaping undoes escaping for arbitrary bytes. |
| `FileLoader.SmallTree` | compiler/src/fileloader.h:48-53 | The bytes of a node with an escaped property and a node in it. |
| `FileLoader.LocatedReads` | compiler/src/fileloader.h:34-54 | The located node has the type, properties and children of the tree encoded there. |
| `FileLoader.RoundTrip` | compiler/src/fileloader.cpp:30-43 | An identifier followed by an encoded tree opens if and only if the identifier is accepted and the root is not wholly empty, and then parses to a tree that reads back as the original. |
| `MapSerialize.DecodeEncode` | compiler/src/fileloader.h:102-168 | Little-endian numbers come back as they were, and the rest of the stream is untouched. |
| `MapSerialize.PropWriteStream.Write` | compiler/src/fileloader.h:164-168 | Appends exactly the little-endian bytes of the number. |
| `MapSerialize.PropWriteStream.WriteString` | compiler/src/fileloader.h:170-179 | Appends length and text, and length 0 for a text over 65535 bytes. |
| `MapSerialize.PropStream.Read` | compiler/src/fileloader.h:102-111 | Takes the number at the front and moves past it, or fails and stays. |
| `MapSerialize.PropStream.ReadString` | compiler/src/fileloader.h:113-130 | Takes a text of the given length from the front, or fails. |
| `MapSerialize.PropStream.Skip` | compiler/src/fileloader.h:132-139 | Moves on by a number of bytes if there are as many. |
| `MapSerialize.ReadFields` | compiler/src/item.cpp:630-643 | Reading the attribute bytes of an item back field by field ends with the values the fields stand for, whatever follows in the stream. |
| `MapSerialize.EmitFits` | compiler/src/item.cpp:649-755 | Every field written fits the format it is read with. |
| `MapSerialize.PersistedKey` | compiler/src/item.cpp:369-755 | What saving and loading does to each attribute, the three that can be the subtype included: which survive, which are reset to what creation gives, capped, made positive or raised to 100. |
| `MapSerialize.PersistedIffStable` | compiler/src/item.cpp:369-755 | The attributes of an item read back with its own type come back unchanged if and only if each of them meets its own condition for surviving. |
| `MapSerialize.ItemUnchanged` | compiler/src/item.cpp:41-96 | An item, created from its id alone or with its subtype, comes back as it was, id included, if and only if its attributes are stable and its type is not replaced. |
| `MapSerialize.IOMapSerialize.ReadAttr` | compiler/src/item.cpp:369-628 | For every tag: reads its value and sets what it stands for, passes over those that are only skipped, or takes the announced number of contents of a container; an unknown tag or a short stream is an error. |
| `MapSerialize.ReadTagFirst` | compiler/src/item.cpp:630-643 | The attribute loop is reading one attribute and going on with the rest of the stream. |
| `MapSerialize.IOMapSerialize.UnserializeAttr` | compiler/src/item.cpp:630-643 | Consumes attributes up to the end mark and computes the functional reader's result on every stream, errors included. |
| `MapSerialize.IOMapSerialize.SerializeAttr` | compiler/src/item.cpp:649-755 | Appends exactly the attribute bytes of the item. |
| `MapSerialize.IOMapSerialize.LoadItem` | compiler/src/iomapserialize.cpp:134-165 | Computes the functional loader on every stream: same item, same bytes left, same failures. |
| `MapSerialize.IOMapSerialize.LoadContainer` | compiler/src/iomapserialize.cpp:116-131 | Loads the number of items announced and checks the end byte, as the functional loader does on every stream. |
| `MapSerialize.IOMapSerialize.SaveItem` | compiler/src/iomapserialize.cpp:217-235 | Appends exactly the encoding of the item with everything in it. |
| `MapSerialize.IOMapSerialize.SaveContents` | compiler/src/iomapserialize.cpp:226-233 | Appends the number of items and their encodings from last to first. |
| `MapSerialize.LoadSaved` | compiler/src/iomapserialize.cpp:134-165 | Loading after saving consumes exactly the bytes written and yields the same tree in the same order, every item with its created id and its persisted attributes. |
| `MapSerialize.LoadContents` | compiler/src/iomapserialize.cpp:116-131 | The contents written in reverse and inserted at the front come back in the original order. |
| `MapSerialize.TreeUnchanged` | compiler/src/iomapserialize.cpp:116-235 | A whole tree, of any ids, comes back unchanged if and only if every item in it has stable attributes and is of no replaced type or a container. |
| `MapSerialize.SavePurse` | compiler/src/iomapserialize.cpp:217-235 | A bag with a stack of coins in it, byte by byte: little-endian ids, the mark and number of contents, the count under its tag, and the end marks. |
| `MapSerialize.PassedOver` | compiler/src/item.cpp:575-625 | Unique ids, depots, doors, sleepers and destinations are passed over, each in its width. |
| `Containers.UpdateItemWeight` | compiler/src/container.cpp:120-126 | Terminates, and adds the difference, modulo 2^32, to exactly the container and those around it. |
| `Containers.Enter` | compiler/src/item.cpp:41-96 | An item just created, on its own and empty, joins a valid world, which stays valid; by `Containers.World.constructor` the world without items is one. |
| `Containers.InternalAddThing` | compiler/src/container.cpp:646-656 | The item becomes first in the container; links and cached weights stay right everywhere. |
| `Containers.AddItemBack` | compiler/src/container.cpp:472-481 | The item becomes last in the container; links and cached weights stay right everywhere. |
| `Containers.AddThing` | compiler/src/container.cpp:451-470 | A full container or a bad index changes nothing; otherwise the item becomes first, links and weights staying right. |
| `Containers.UpdateThing` | compiler/src/container.cpp:483-504 | On an item that is in the container, type, the attributes a change of type touches, and the subtype are set: the fluid of a fluid container, the count of a stack, the charges of a charged item; weights follow all the way up. |
| `Containers.ReplaceThing` | compiler/src/container.cpp:506-528 | The new item takes the old one's place in the list, the old one has no parent, and weights follow all the way up. |
| `Containers.RemoveThing` | compiler/src/container.cpp:530-563 | A stack loses the count or goes with its last pieces, another item goes; the list is then the old one without the item's first place, and links and weights stay right. |
| `Containers.GetThingIndex` | compiler/src/container.cpp:565-575 | The first place of the item in the list, -1 when it is not there. |
| `Containers.World.ChainUnique` | compiler/src/container.cpp:120-126 | The containers around an item form one chain: nothing lies around itself and depths never repeat. |
| `Containers.World.ChainChild` | compiler/src/container.cpp:263-277 | What lies around a container lies around everything in it. |
| `Containers.ShapeAt` | compiler/src/container.cpp:120-131 | Under the invariant every item is the root of a finite tree of contents. |
| `Containers.CachedWeight` | compiler/src/container.cpp:128-131 | A container's cached weight equals the sum over everything in it, at any depth, of the weight of a piece times the number of pieces, modulo 2^32, in every state that keeps the invariant. |
| `Containers.OneStack` | compiler/src/item.cpp:777-784 | A container that holds just one plain stack of n pieces has n times the weight of its type cached, modulo 2^32. |
| `Containers.Purse` | compiler/src/container.cpp:483-563 | A run: a stack is put into a new bag, is given another count, loses pieces and goes; the cached weight is each time the number of pieces times their weight, and 0 at the end. |
| `Moves.QueryAdd` | compiler/src/container.cpp:240-300 | No error exactly when the container is unlocked, the item can be picked up, the container is not in the item, there is room, and the limits of the container and of its top parent, where these are chests, leave room; chests in between are not asked. |
| `Moves.QueryMaxCount` | compiler/src/container.cpp:302-353 | The count is exactly the free places, a hundred pieces each for a stack, plus what fits on top of equal stacks that may take as many, each asked about together with the limits of the chests concerned; an error exactly when that is too little. |
| `Moves.QueryRemove` | compiler/src/container.cpp:355-375 | No error exactly when the item is in the container, the count is one it has, and it can be moved. |
| `Moves.QueryDestination` | compiler/src/container.cpp:377-444 | Of an open container position 254 leads to the parent, if there is one, and anywhere in it; a stack from elsewhere that stacks by itself goes onto the first equal stack with room; otherwise a container at the position is the destination, another item there is what is dropped on, and 255 or a position past the capacity means anywhere. A locked container redirects nothing. |
| `Moves.FindDestination` | compiler/src/game.cpp:1011-1024 | Redirections are followed until a container keeps the item, 16 times at most; the container reached is a known one and the item reported lies there. |
| `Moves.DecideMove` | compiler/src/game.cpp:1031-1089 | Agrees exactly when the destination takes the item and the source lets go as many pieces as there is room for; these then fit, and the destination does not lie in the item. |
| `Moves.CarryOut` | compiler/src/game.cpp:1106-1139 | The pieces taken off are on the stack at the destination as far as they fit, the others in a new stack in front; an item that is no stack is in front itself; both lists are otherwise as before and nothing else in the world is written but weights. The count of any choice of kinds changes by exactly the drift, and that of the item's own kind, by id and attributes, is conserved if and only if the item is no stack, or what it merges with is undisturbed, or nothing is merged, and the new stack, if there is one, is a clone with the same attributes. |
| `Moves.MergeOnto` | compiler/src/game.cpp:1115-1121 | Pieces are added to an equal stack up to 100, and even a full one is updated: the count of every choice of kinds changes by exactly the gain. |
| `Moves.MoveStack` | compiler/src/game.cpp:1106-1139 | Taking, merging and adding the rest keeps links, weights, stack sizes and capacities, and changes the count of every choice of kinds by exactly the drift. |
| `Moves.InternalMoveItem` | compiler/src/game.cpp:1008-1173 | Keeps links, cached weights, capacities and stacks of 1 to 100; moves exactly as many pieces as the queries allow, to where the redirections lead, topping up and starting a stack there, or changes nothing; writes only the item, what it merges with, the two lists and weights; reports success exactly when all went; and conserves the item's kind exactly as `Moves.CarryOut` does, and the total of every settled choice of kinds. |
| `Moves.ConservedIff` | compiler/src/game.cpp:1115-1132 | The drift of the item's own kind is nothing if and only if nothing moves, the item is no stack, or attributes survive both the merge and the clone. |
| `Moves.DisturbedStack` | compiler/src/item.cpp:248-268 | Ten pieces with 30 seconds of their 60 left, merged onto twenty of the same kind: the kind loses all thirty, and the kind with the full minute left gains them. |
| `Moves.DisturbedRun` | compiler/src/game.cpp:1115-1121 | The same as a run in an empty world: ten such pieces moved onto twenty make thirty with the full minute and a reset decay state. |
| `Moves.RenewedUnchanged` | compiler/src/item.cpp:248-268 | Merging onto a stack leaves its attributes alone if and only if they are what a fresh change of type would set. |
| `Moves.AllKindsSettled` | compiler/src/game.cpp:1115-1121 | On undisturbed attributes, absent ones included, every choice of kinds is conserved. |
| `Moves.ByIdSettled` | compiler/src/game.cpp:1115-1121 | Counting by id alone is always conserved. |
| `MoveResults.MoveWeighed` | compiler/src/game.cpp:1008-1173 | Whatever is moved wherever, and merged, split or refused: all items in play together weigh what they did before. |
| `MoveResults.HeftIsTally` | compiler/src/item.cpp:777-784 | The weights of all items together are the weights of all their pieces. |
| `MoveResults.OneRedirection` | compiler/src/game.cpp:1011-1024 | Containers redirect a dropped item once at most, so that the limit of sixteen is never reached. |
| `MoveResults.MoveUp` | compiler/src/container.cpp:385-394 | An item moved to position 254 of the open container it is in leaves it and is in front of the parent, if that takes it. |
| `MoveResults.MoveInto` | compiler/src/container.cpp:430-441 | An item dropped on a container in a list ends up in front in that container, if it takes it. |
| `MoveResults.MoveOnto` | compiler/src/container.cpp:416-429 | Pieces that stack by themselves go onto the first stack of their kind with room, which grows by them, while nothing else in the list changes. |
| `MoveResults.RoomIsMissing` | compiler/src/container.cpp:302-353 | An open container that holds nothing but stacks of one kind takes exactly the pieces of that kind that it lacks of a hundred in every place. |
| `Iteration.ContainerIterator.Advance` | compiler/src/container.cpp:680-698 | Steps to the next item of the level order. |
| `Iteration.Visit` | compiler/src/container.cpp:665-678 | The iterator ends and has visited the level order of the contents. |
| `Iteration.QueueIsLevelOrder` | compiler/src/container.cpp:665-698 | Popping and queueing visits level by level. |
| `Iteration.LevelOrderExact` | compiler/src/container.cpp:665-698 | The level order holds every item below the root, at any depth, exactly as often as it occurs there. |
| `Iteration.GetItemHoldingCount` | compiler/src/container.cpp:173-180 | Counts exactly the items below, at any depth. |
| `Iteration.IsHoldingItem` | compiler/src/container.cpp:182-190 | True exactly if this very item lies in the container, at any depth. |
| `DepotChest.GetTopParent` | compiler/src/item.cpp:271-307 | The pointer walk ends at the last cylinder below the root, for containers and for other items. |
| `DepotChest.WithinLimit` | compiler/src/depotchest.cpp:28-58 | Admits exactly if what lies in the chest at any depth, and what the chest reckons with for the item, is within the limit. |
| `DepotChest.HeldIsSize` | compiler/src/container.cpp:173-180 | The number the iterator counts is the number of items on whose parent chain the container is. |
| `DepotChest.TopParentIff` | compiler/src/item.cpp:290-307 | A chest is the top parent of a container in it if and only if it hangs directly in the root. |
| `DepotLimit.AskedKeepsLimit` | compiler/src/depotchest.cpp:33-54 | A chest that is asked reckons with at least what the move will bring, also when only part of a stack finds room. |
| `DepotLimit.AskedExactly` | compiler/src/depotchest.cpp:33-54 | For an item that is no stack a chest reckons with exactly what the move will bring, and so admits it if and only if it will be within the limit, unless the item lies in it already below another top parent. |
| `DepotLimit.HeldAfter` | compiler/src/game.cpp:1106-1139 | After a move the chest holds exactly what was foreseen: the item and all in it if it came from outside, nothing more if it was in the chest, one more for a new stack, one less for a stack used up. |
| `DepotLimit.MoveItem` | compiler/src/depotchest.cpp:28-58 | A move goes through exactly if all queries agree, those about room on stacks included, in which the chests are asked again; whenever it brings something into a chest, at any depth, the chest then holds what was foreseen, and its limit is kept if and only if the destination is the chest, the chest is the destination's top parent, or there is room anyway. |
| `DepotLimit.OverLimit` | compiler/src/player.cpp:810-820 | In a locker on a tile, a full chest with a bag in it: the bag agrees to another item, and the chest then holds one more than its limit. |
| `Decay.Game.StartDecay` | compiler/src/game.cpp:4039-4057 | An item that can decay and does not yet is put at the front of the waiting list when it has time left, and decays at once when it has none; one that is removed, has a unique id, is of a type that does not decay, or decays already is left alone. |
| `Decay.Game.InternalDecayItem` | compiler/src/game.cpp:4059-4071 | The item is removed if nothing follows; otherwise it is of the type that follows, with its whole time before it and waiting to be queued exactly if that type decays. |
| `Decay.Game.VisitItem` | compiler/src/game.cpp:4081-4110 | A visited item fires exactly when it can decay and is due at this tick, and has then become what follows or is removed; otherwise it keeps its type and its due tick or leaves the wheel. |
| `Decay.Game.Cleanup` | compiler/src/game.cpp:4211-4219 | Every waiting item is put in the bucket that makes it due after its delay. |
| `Decay.Game.CheckDecay` | compiler/src/game.cpp:4073-4115 | One tick fires exactly the items that are due and can decay. Each of these is removed, or of the type that follows, and in a bucket again, due after that type's whole time, exactly if it decays. All others that can decay stay with the same due tick, still to come. |
| `Decay.Game.AwaitDecay` | compiler/src/game.cpp:4073-4115 | Whatever else starts to decay meanwhile, a queued item that can decay fires at the tick it was given: it is in the last entry of the log of what fired, which covers every tick up to then, and in no earlier one. |
| `Decay.Game.DecayFromStart` | compiler/src/game.cpp:4039-4115 | From start to end: an item whose decay is started with a duration left fires the delay of that duration after it is queued, and at no tick on the way; what it has become is due after its own whole time. |
| `Decay.Game.LiveOut` | compiler/src/game.cpp:4039-4115 | A whole life: an item that goes through a chain of decaying types fires once for each of them, each after its whole time, however much else decays meanwhile, and at the end is gone, or of the type that stays, and in no bucket. |
| `Decay.Game.AtMostOneBucket` | compiler/src/game.cpp:4211-4219 | An item is in at most one bucket, once, and not also waiting. |
| `Decay.VisitKeepsDue` | compiler/src/game.cpp:4090-4110 | The time taken off at a visit and the bucket chosen next never change the due tick. |
| `Decay.EntryBucket` | compiler/src/game.cpp:4211-4219 | The bucket chosen on entry gives a delay of 4 ticks per whole second, one more from 875 ms of the rest on, and 1 tick below a second. |
| `Decay.NeverLate` | compiler/src/game.h:74-75 | From one second up an item is never late, and early by less than 875 ms. |
| `Trade.Game.PlayerRequestTrade` | compiler/src/game.cpp:2239-2346 | A request starts a trade exactly when it is not with oneself, the item is not, is not in, and does not hold an item on offer, holds under 100 items, and both players may trade. |
| `Trade.Game.InternalStartTrade` | compiler/src/game.cpp:2348-2379 | Starts exactly for a player who is idle or asked by this partner and a partner who is idle or trading with the player; sets states, links, offer and reference. |
| `Trade.Game.PlayerAcceptTrade` | compiler/src/game.cpp:2381-2480 | Nothing is handed over until the partner has accepted too; then the trade is over for both, and both offers are struck off, whatever became of the moves. It succeeds if and only if the player may accept, the partner has accepted, both have an offer, and reach, event and all moves but the last agree. |
| `Trade.Game.BothOffered` | compiler/src/game.cpp:2388-2406 | A player about to accept has both offers in front of it if and only if it has made its own and the partner has initiated, or has accepted with an offer. |
| `Trade.Game.NoOfferFollows` | compiler/src/game.cpp:2348-2356 | Once a player has accepted without an offer neither side can make one any more. |
| `Trade.AcceptedUnseen` | compiler/src/game.cpp:2239-2480 | From a fresh game: one player accepts with nothing on the other side; the other offers afterwards and accepts, and the trade succeeds if the moves do. |
| `Trade.AcceptedEmpty` | compiler/src/game.cpp:2239-2480 | From a fresh game: a player who accepts with no offer is refused one afterwards, and the trade fails whatever the moves. |
| `Trade.Game.Exchange` | compiler/src/game.cpp:2428-2453 | Closing the trade has no effect while items are handed over; success does not depend on the last move. |
| `Trade.Game.InternalCloseTrade` | compiler/src/game.cpp:2579-2621 | Ends the trade on both sides and strikes off both offers, but does nothing during a transfer. |
| `Trade.Game.Sweep` | compiler/src/game.cpp:4206-4209 | Drops every released reference, leaving one for each item still on offer and none for others. |
| `Trade.Game.Run` | compiler/src/game.cpp:2239-2621 | Any run of operations by any players keeps links symmetric and irreflexive, states consistent, offers listed and references counted. |
| `Trade.Game.OneOfferEach` | compiler/src/game.cpp:2348-2621 | Between operations the listed items are exactly the offered ones, each offered by one player; no pair has accepted on both sides and nobody is in transfer. |
| `Damage.GenerateDamageList` | compiler/src/condition.cpp:1190-1208 | Terminates; the list never goes up, holds every value from the start to 1, each as often as brings the sum so far nearest to its even share of the amount, sums to at least the amount, and to exactly the amount if and only if the amount is at least start*(start+1)/2, however ties are rounded. |
| `Damage.NextFits` | compiler/src/condition.cpp:1199-1206 | A further value is taken only where it leaves room for every later stage. |
| `Damage.DefaultStartExact` | compiler/src/condition.cpp:969-971 | With the default start the split is exact if and only if the amount is at most 760, or 780. |
| `Damage.ConditionDamage.AddDamage` | compiler/src/condition.cpp:924-954 | Queues the given number of equal entries at least a second apart and lengthens the condition accordingly; periodic damage takes no entries. |
| `Damage.ConditionDamage.Init` | compiler/src/condition.cpp:956-981 | Queues a list for an amount: its values, negated, are a staircase that never goes up and takes every value from the start to 1, each for its even share, at least the amount in all, and exactly the amount if that allows it; entries are equally far apart, and ticks are the time of the list, at least as many intervals as the start. |
| `Damage.ConditionDamage.ExecuteCondition` | compiler/src/condition.cpp:1002-1040 | Deals the first entry when its time is up and keeps the rest; in a matching field the entry is kept as well and the condition is prolonged. |
| `Damage.ConditionDamage.RunOut` | compiler/src/condition.cpp:1002-1040 | Every entry is dealt alone, at the think at which its time is up; damage dealt and damage left always make up the list; all of it is dealt if and only if the thinks needed are at most those that fit. |
| `Damage.ConditionDamage.Suffer` | compiler/src/condition.cpp:956-1040 | With intervals of whole seconds, from start to end: the damage dealt is a staircase from the start down to 1 that covers the amount, the first value at once unless the condition is delayed, every further one alone and an interval after the one before, and all before the condition ends. |
| `Damage.ConditionDamage.EndsEarly` | compiler/src/condition.cpp:1002-1040 | Three entries queued 1100 ms apart need six thinks and get four: two are dealt, at the second and the fourth, and the condition ends with the third left. |
| `Speed.Creature.AddCondition` | compiler/src/creature.cpp:1143-1172 | Keeps one condition per key and the speed accounted for: a condition of the same key is refreshed, a new one appended if it starts, to end after its ticks and with its own effect on the speed or the one drawn. |
| `Speed.Creature.Refresh` | compiler/src/condition.cpp:1303-1334 | An endless condition is not cut short; otherwise a haste or paralysis then lasts as long as the new one and the speed changes by the difference of the two deltas. Other conditions are prolonged but not cut short. |
| `Speed.Creature.LastsItsTicks` | compiler/src/condition.cpp:135-144 | A run: a haste or paralysis added now is still on after thinks at given times if and only if none of them came after its ticks were over. |
| `Speed.Creature.RemoveCondition` | compiler/src/creature.cpp:1187-1239 | Removes exactly the conditions it is for, in order, or none when a paralysis has to stay; speed accounted for. |
| `Speed.Creature.RemoveByType` | compiler/src/creature.cpp:1187-1212 | Exactly the conditions of the type go. |
| `Speed.Creature.RemoveById` | compiler/src/creature.cpp:1214-1239 | Exactly the conditions of the type and the id go. |
| `Speed.Creature.RemoveOne` | compiler/src/creature.cpp:1255-1275 | Removes that condition and no other, undoing its effect on the speed. |
| `Speed.Creature.ExecuteConditions` | compiler/src/creature.cpp:1297-1315 | One pass removes exactly the conditions that have ended, their effect on the speed undone. |
| `Speed.Creature.SpeedRestored` | compiler/src/game.cpp:3336-3341 | With no haste or paralysis left the speed is what everything else makes it. |
| `WalkCache.Creature.UpdateMapCache` | compiler/src/creature.cpp:294-308 | Every cell shows its tile. |
| `WalkCache.Creature.OnCreatureMove` | compiler/src/creature.cpp:489-568 | After a step north, south, east, west, north-east or north-west the shifted cache is what a full recomputation gives but for the creature's own cell; after south-east and south-west if and only if the first and last line do not change along x where they are off. |
| `WalkCache.Creature.ShiftColumns` | compiler/src/creature.cpp:519-564 | What every cell shows after a step, outermost rows included. |
| `WalkCache.Creature.SouthEastCanFail` | compiler/src/creature.cpp:524-530 | A single walkable tile in the corner of the view makes the cache wrong after a step south-east. |
| `WalkCache.Creature.GetWalkCache` | compiler/src/creature.cpp:327-356 | Answers truthfully about every tile in range from an up-to-date cache, and 2 when it cannot tell. |
| `Area.CopyRotated` | compiler/src/combat.cpp:1137-1186 | The output covers exactly the offsets of the input, turned by 90, 180 or 270 degrees about the centre, and every write stays inside it. |
| `Area.CopyMirrored` | compiler/src/combat.cpp:1119-1127 | The output covers the mirrored offsets of the input, displaced by columns minus rows. |
| `Area.CopyFlipped` | compiler/src/combat.cpp:1128-1136 | The output covers the flipped offsets of the input, displaced by rows minus columns. |
| `Area.MirroredIffSquare` | compiler/src/combat.cpp:1127 | The mirrored area is the reflection if and only if the drawing is square or covers nothing. |
| `Area.FlippedIffSquare` | compiler/src/combat.cpp:1136 | The flipped area is the reflection if and only if the drawing is square or covers nothing. |
| `Area.CreateArea` | compiler/src/combat.cpp:1188-1219 | The area covers exactly the cells marked 1 or 3, with its centre at a cell marked 2 or 3 if there is one, and in the grid anyway. |
| `Area.AreaCombat.SetupArea` | compiler/src/combat.cpp:1221-1244 | East, south and west areas cover exactly the north offsets turned by 90, 180 and 270 degrees. |
| `Area.AreaCombat.TurnedAsDrawn` | compiler/src/combat.cpp:1221-1244 | The east area covers the offset (dy, dx) if and only if the north one covers (-dx, dy), the south one if and only if it covers (-dy, -dx), the west one if and only if it covers (dx, -dy). |
| `Area.AreaCombat.SetupWave` | compiler/src/combat.cpp:1246-1279 | Every row of the wave is an interval between equal margins that grow by one every spread rows and never pass the middle, so no row is empty; the centre is in the middle of the last row. |
| `Area.AreaCombat.SetupExtArea` | compiler/src/combat.cpp:1316-1344 | The diagonal areas are reflections of the drawing, displaced when it is not square. |
| `Area.AreaCombat.SquareIsReflected` | compiler/src/combat.cpp:1316-1344 | From a square drawing all three diagonal areas are exact reflections. |
| `Area.AreaCombat.GetArea` | compiler/src/combat.h:204-236 | A target further east gets the east area, one further west the west one, one straight north the north one and any other the south one; with diagonal areas, a target off both axes gets the area of its quarter. |
| `Area.AreaCombat.GetList` | compiler/src/combat.cpp:1075-1104 | The list holds exactly the tiles at the area's offsets from the target that can be seen from it, each once if the area is no wider than the coordinates. |
| `Area.SpotOnMap` | compiler/src/combat.cpp:1085-1102 | Everywhere on a map of 16-bit coordinates the spot of an offset is the tile that far from the target. |
| `Money.RemoveMoney` | compiler/src/game.cpp:1364-1441 | Succeeds exactly when the coins at any depth are worth as much; then what is left and the change are worth exactly the amount less; otherwise nothing changes. Cheaper stacks go first: a stack is touched only when all cheaper ones are gone, at most one is shortened, and change, less than one of its coins, is given for a dearest stack touched. |
| `Money.BreakBar` | compiler/src/game.cpp:1423-1439 | A single bar, out of which one gold coin is taken: 999999 are left or come back. |
| `Money.LookThrough` | compiler/src/game.cpp:1374-1417 | Finds every stack at any depth exactly once, sorted by worth, and their sum. |
| `Money.Pay` | compiler/src/game.cpp:1423-1439 | Pays exactly the amount from the first stack up: those before the last one touched are gone, those behind it untouched, and change is given for it only, in smaller coins and worth less than one of its own. |
| `Money.GiveChange` | compiler/src/game.cpp:1428-1434 | Takes no more coins than the stack has, and the change makes up the difference exactly. |
| `Money.AddMoney` | compiler/src/game.cpp:1443-1484 | The coins handed out are worth the amount if and only if the 32-bit product of the crystal coins does not overflow, or overflows by a multiple of 25 times 2^32 with gold coins to give; below that they are as many crystal coins as fit, then as many platinum coins, then gold, in stacks of 1 to 100. |
| `Money.ExactIff` | compiler/src/game.cpp:1449-1450 | The same condition for the arithmetic of the split, for every amount. |
| `Money.ShortChange` | compiler/src/game.cpp:1449-1450 | The least amount that comes out wrong, and one beyond it that comes out right. |
| `Money.TotalOfSame` | compiler/src/game.cpp:1364-1441 | The worth of stacks does not depend on their order. |
| `ItemAttributes.ItemAttributes.GetAttr` | compiler/src/item.cpp:1762-1775 | Finds the one place of a type, or makes one at the front; list and mask go on agreeing. |
| `ItemAttributes.ItemAttributes.SetIntAttr` | compiler/src/item.cpp:1732-1739 | The map is updated at a number's type and left alone otherwise. |
| `ItemAttributes.ItemAttributes.IncreaseIntAttr` | compiler/src/item.cpp:1741-1748 | Adds to the number there, or to 0. |
| `ItemAttributes.ItemAttributes.SetStrAttr` | compiler/src/item.cpp:1682-1695 | The map is updated at a text's type with a text that is not empty, and left alone otherwise. |
| `ItemAttributes.ItemAttributes.RemoveAttribute` | compiler/src/item.cpp:1697-1717 | The type is gone from the map and the mask, and nothing else changes. |
| `ItemAttributes.ItemAttributes.GetIntAttr` | compiler/src/item.cpp:1719-1730 | The number there, or 0. |
| `ItemAttributes.Item.Equals` | compiler/src/item.cpp:189-222 | Equal exactly when the ids agree and either neither item has attributes or both have the same map, so an equivalence. |
| `ItemAttributes.SameBits` | compiler/src/item.h:209-298 | Masks with the same single bits are the same mask. |
| `ItemAttributes.MapsCompared` | compiler/src/item.cpp:204-221 | With the same mask, no clash of values means equal maps. |

## Left out

- LoginData.SaveAndLoad: the stages between saving and loading are joined by the rows as values, in descending order of id; SQL text, batching and transactions are not modelled. An attribute object that holds nothing counts as none.
- LoginData.CreateItem: deprecated types, and doors, beds, teleports, fields, mailboxes and trash holders as classes of their own; such an item is created like any other.
- LoginData.AttachItems: rows that lie in a container of a larger or the same number, which the saver never writes and which could make a ring; items at slots have no parent in the model.
- ItemRows.SaveItems: reward rows whose slot numbers exceed 100, and more than 2^31 rows, where the counter would overflow.
- FileLoader.RoundTrip: memory mapping of the file, and failing to open it.
- MapSerialize.PersistedKey: unique ids are only skipped over on reading, and the attributes of doors, beds, teleports and depots as derived classes are not modelled.
- MapSerialize.LoadSaved: items lying directly on tiles that match a stationary item, and starting the decay of loaded items.
- Containers.ReplaceThing: parent and list are changed before the weights are pushed, which nothing observes.
- Moves.InternalMoveItem: players and tiles as cylinders, exchange of items, the trade parameter, FLAG_NOLIMIT, inboxes and mailboxes; stackable fluids and stackable containers, which are excluded by the invariant `Moves.Tidy`.
- DepotLimit.MoveItem: the root of a chain, a tile in the source, is a container like the others; players on the chain, the flag that skips limits, and which error is reported first when several apply.
- Decay.Game.VisitItem: an item is taken off its bucket before its fields change; items removed from the game while queued, and types changed from outside while decaying.
- Decay.Game.InternalDecayItem: what follows is the same object with another type; types that decay into themselves or into unknown ones, for which the source starts over without end or forgets the item; types whose time stops; and times of over 24 days, which wrap.
- Trade.Game.PlayerRequestTrade: reach, sight, walking there, and event scripts, which are taken to agree; what containers hold is taken not to change while they are on offer.
- Trade.Game.Exchange: where the items end up; the moves are given by their outcomes, and no atomic swap is claimed.
- Damage.GenerateDamageList: floating-point rounding other than on exact ties, and amounts whose product with the start leaves 32 bits.
- Damage.ConditionDamage.ExecuteCondition: what suppresses or blocks damage, and halving it in fields.
- Speed.Creature.AddCondition: the draw of a speed from a formula is a parameter; conditions other than haste and paralysis only start, last and end; removing all conditions of a type at the end of a fight is removing one after the other.
- WalkCache.Creature.OnCreatureMove: positions within 11 tiles of the coordinate limit, where 16-bit coordinates wrap.
- Area.CreateArea: lists that do not fill their rows, for which the source writes out of bounds.
- Area.AreaCombat.SetupWave: negative lengths; the circles of `setupArea(radius)` are drawings like any other.
- Area.CopyRotated: sines and cosines of right angles are taken as whole numbers.
- Money.RemoveMoney: removing a stack marks it as gone from its place, and change is returned as new stacks instead of being put into a cylinder, which is taken to succeed.
- ItemAttributes.ItemAttributes.IncreaseIntAttr: overflow of 64 bits.
- Experience shares of damage, item descriptions, configuration, chat, access lists, house rent, path search and the quadtree: only easy or cosmetic claims would be added.
- Lua events, sockets, spectators, client messages and effects: output and foreign calls.
