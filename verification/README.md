# A verified model of the messaging server and its client

The program is a store-and-forward messaging service: a multi-threaded C server (`src-server/`) with one
mutex over a linked list of users, each owning a linked queue of pending messages, a Python client
(`client.py`) that is also a small server for deliveries and file requests, and a web service
(`servicio_web.py`) that normalises message text. Delivery happens with the mutex released, so the interesting
questions are about what every interleaving keeps.

The project has three layers.

1. **The protocol** (`MessageIds`, `Registry`, `Protocol`, `Stranded`, `Ownership`, `Delivery`, `History`,
   `Acknowledgements`, `Membership`, `Ledger`, `Loss`, `Finality`, `Departures`, `Conservation`, `SenderOrder`,
   `SerialRuns`, `SerialEffects`). A transition system whose steps are the mutex-protected sections of
   the handlers and the unlocked outcomes of the network, freely interleaved. `Protocol.Run(steps)` is defined for
   every sequence of steps (a step that is not offered changes nothing), so "for all `steps`" means every run of
   every interleaving. The state also records the run: what was accepted, where each message node went, what was
   reported delivered, what was acknowledged. `History`, `Acknowledgements` and `Membership` tie every part of that
   record, who is registered, who is connected from where, and the handlers' answers to the steps themselves, in
   both directions.
2. **The linked structures** (`MessageList`, `LinkedServer`, `Sections`, `Requests`, `UsersRequest`, `Execution`).
   User and message nodes with `next` pointers and the real loops: find, unlink, append at the tail, first-match
   removal, detach, flush, splice back. A message node is owned by one queue or by one worker, and releasing a node
   needs a proof that it is allocated and not yet released. Each section's contract says that it does to the list
   what the protocol's transition does to the map of users, and that it leaves the nodes other workers own (`others`)
   alone and theirs. `Server.Lock` may change anything the caller does not own, so the handlers' contracts hold
   whatever other workers do; `Execution.LockAmid` shows that the others, running any schedule of sections, keep
   what `Lock` promises. `Execution.Execute` runs any schedule of steps over the linked lists and ends where
   `Protocol.Run` of the same steps says: the users and their queues, the workers and the nodes they hold, what was
   reported and acknowledged, message by message, and which nodes are released. Three of the protocol's theorems are
   restated for the heap: `QuietPointerIsNull`, `UnreportedIsOnTheHeap` and `ReleasedOrLinked`.
3. **The wire** (`Decimal`, `PythonText`, `Framing`, `Frames`, `UsersReply`, `CutReply`, `RecordSizes`, `Addresses`,
   `Answers`, `FileTransfer`, `FileExchange`, `Utf8`, `Normalizer`, `EndToEnd`). Reading and writing over scripted
   sockets (interrupted, partial and failing calls), the message frames, the answers, the USERS reply, the file
   transfer and the normaliser, from the command line to the server's buffers and on to the listener. `Addresses`,
   `Answers`, `FileExchange` and `EndToEnd` put both ends together: what one side is told of what the other did.

Where definitions only compute they are stated once and their properties are lemmas: `Registry.Register`,
`Unregister`, `Connect`, `Disconnect`, `Enqueue`, `Remove`, `MarkDown` and `SpliceBack` are the locked sections of
`src-server/src/operaciones.c` on the map of users; `Protocol.Apply` puts them together with the network outcomes;
`MessageIds.NextId` is the counter; `Framing.ScanField`, `Frames.StoredFields`, `UsersReply.Reply`,
`FileTransfer.FateOf` and `Normalizer.Normalize` are the references the loops are proved against.

## What turned out not to hold

- Delivery is not exactly-once under concurrency: a CONNECT can detach and deliver a message whose own send is in
  flight (`Departures.DeliveredTwice`). Two reports are the maximum (`Delivery.AtMostTwoReports`). At any moment a
  message can still end up reported twice exactly when its send has reported it or has still to try, and a flush
  has reported it or can still find its node unreleased (`Finality.CanBeTwiceIff`). At the moment of acceptance
  that means: at-most-once holds, in every continuation, exactly for the messages whose recipient is not connected
  then (`Finality.AtMostOnceIff`). Whenever it did happen, a CONNECT had detached the node while its send was in
  flight, or that send had removed another message's node (`Loss.SecondDeliveryNeeds`).
- Queues are not first-in first-out: a failed flush puts older messages behind newer ones
  (`Departures.FailedFlushReorders`). Order is kept in every state of a run if and only if each failed flush finds
  what is queued to be older than what it gives back (`SenderOrder.InOrderIffOrderly`).
- A message can be lost, even when its recipient is never unregistered, when ids repeat after a re-registration
  (`Departures.ReusedIdLosesMessage`). A message is lost in every continuation exactly when it was never reported,
  its node was discarded with its recipient or removed by another message's send, and its own send has nothing left
  to try (`Finality.LostForGoodIff`). `Finality.StepLosesIff` gives the exact guard of the step that loses it: its
  recipient is unregistered while it is queued, or is gone when a failed flush gives it back, or a delivered send finds
  it first among the queued messages of its own key, or its own last try fails after one of these. Discarding needs an
  unregistered recipient, and the removal by another's send never happens to a sender that stays registered and uses at
  most 2^32 - 1 ids (`Loss.NoLoss`).
- A delivery counted as failed is nevertheless shown in full to the recipient exactly when the message can be decoded
  and nothing but NULs, usually only the last one, is missing (`Frames.FailedYetShownIff`), so it is shown again later.
- A sender's read error during a file transfer goes unnoticed when at most three bytes are missing, because the
  "-1" mark is then taken for the end of the file (`FileTransfer.BrokenReadUnnoticedIff`). A reset, unlike a close,
  leaves a partial file (`FileTransfer.ResetLeavesPartIff`).
- The client's directory after USERS is the registry's map of connected users exactly when every connected user's
  name, address and port can be decoded and has no "::" and no outer white space
  (`UsersReply.DirectoryIsTheRegistryIff`). A name or address that cannot be decoded, such as a name cut inside a
  character, raises out of the call with the directory cleared and refilled only up to that record
  (`UsersReply.RaisesIff`); only the shell's last resort catches that exception.
- A USERS reply cut off by a refused write and then closed still counts as OK exactly if some of it arrived and the
  cut is not inside a character (`CutReply.CutReplyAcceptedIff`), although entries may be missing or a port cut short.
  Nothing is missing from the directory exactly when only NULs and spaces are, which are the last NUL and the space
  before an empty port (`CutReply.CutReplyIff`). After a reset instead of a close, only the whole reply counts as OK
  (`CutReply.ResetReplyIff`).
- The answer to a send has the same weakness: cut off before its last NUL and closed, it makes the client show a
  shorter number for the id (`Frames.CutAnswerIff`).
- After a DISCONNECT that was refused, or whose answer was lost, the client has stopped listening all the same, while
  the server may go on counting the user as connected (`Answers.DisconnectTold`); so it does after a CONNECT whose
  answer was lost (`Answers.ConnectTold`). An error in answer to a REGISTER or an UNREGISTER means that the answer was
  lost, not that nothing happened (`Answers.RegisterTold`, `Answers.UnregisterTold`).
- A sender name, message or file name cut at 255 bytes can end inside a character. The recipient's listener decodes
  every string before it shows anything, so it then shows nothing, the exception ends its loop, and it shows nothing
  that comes later either (`Frames.SilentAfterRaise`). That happens exactly when one of the three is cut inside a
  character (`Utf8.CutDecodesIff`, `EndToEnd.CommandReachesReader`). The delivery counts as done all the same.

Where comments and code disagree the model follows the code. The removal is commented as matching one exact message
(`src-server/src/operaciones.c:91`) but compares a key that can repeat. The client's comment limits a text to 255
characters (`client.py:550`) where the server counts bytes. The comment on sending (`client.py:516-518`) promises a user
error for a message that is only queued and an error for an unknown user; the code returns OK for the one and a user
error for the other (`Answers.SendTold`). `add_user` reports a failed allocation
(`src-server/src/linked_list.c:11-14`) and its caller ignores it (`src-server/src/operaciones.c:287`).

## Model

| member | source | states |
|---|---|---|
| MessageIds.NthId | src-server/src/operaciones.c:681-688 | the n-th id since registration is ((n - 1) mod (2^32 - 1)) + 1: the 32-bit counter wraps past 0 |
| MessageIds.SameIdIff | src-server/src/operaciones.c:681-688 | two assignments share an id exactly when their positions differ by a multiple of 2^32 - 1 |
| MessageIds.IdInRange | src-server/src/operaciones.c:681-688 | every id handed out is a non-zero 32-bit number |
| MessageIds.IdIsPosition | src-server/src/linked_list.c:22 | from a fresh registration the first 2^32 - 1 ids are the positions themselves |
| Decimal.PrintReads | src-server/src/operaciones.c:688 | the decimal text of any number is all digits, has no byte that ends a field, and reads back as the number |
| Decimal.PrintIff | src-server/src/operaciones.c:688 | the text is the only one without leading zeros that reads back as the number |
| Frames.KnownNumbers | src-server/src/operaciones.c:688 | the least and the greatest 32-bit number, and 10, as text |
| Decimal.IdTextReads | src-server/src/operaciones.c:634-688 | the text of every id fits the 16-byte buffer with its NUL and identifies the id |
| Registry.FirstMatch | src-server/src/operaciones.c:90-114 | the removal loop's target: the first node that matches, with no match before it |
| Registry.TakesIsKeyEquality | src-server/src/operaciones.c:92-103 | between stored messages the loop's comparison of id, flag, sender and file is equality of keys |
| Registry.LookupAgrees | src-server/src/linked_list.c:86-106 | looking a name up in the list finds the record the map holds, and misses exactly the unknown names |
| Registry.InsertAgrees | src-server/src/linked_list.c:29-34 | inserting an unknown name at the head keeps names unique and adds exactly that blank record to the map |
| Registry.RemovalAgrees | src-server/src/linked_list.c:48-69 | unlinking one user removes exactly that name from the map |
| Registry.UpdateAgrees | src-server/src/operaciones.c:424-429 | changing one user's fields in place changes exactly that entry of the map and keeps names unique |
| Stranded.NeverStranded | src-server/src/operaciones.c:75-823 | in every state of every interleaving a connected user has at most as many queued nodes of a key as sends of that key and recipient are in flight; also with repeated ids and re-registrations |
| Stranded.QuietQueueIsEmpty | src-server/src/operaciones.c:718-823 | a connected user towards whom no send is in flight has an empty queue |
| Stranded.DisconnectedHaveNoAddress | src-server/src/operaciones.c:220-812 | in every run a disconnected user has a blank ip and port |
| Stranded.RemovalCount | src-server/src/operaciones.c:90-114 | the removal takes exactly one node of the message's key if there is one, and touches no other key |
| Ownership.AlwaysOwned | src-server/src/operaciones.c:105-250 | in every reachable state queues, detached lists, releases and sends in flight agree with the record of where each node is |
| Ownership.OneOwner | src-server/src/operaciones.c:434-437 | a live message node is in exactly one place: one position of one queue or of one detached list |
| Ownership.ReleasedOnceOrOwned | src-server/src/operaciones.c:105-242 | every accepted message's node has been released exactly once and is nowhere, or never and is somewhere |
| Delivery.ReportsStaySound | src-server/src/operaciones.c:179-208 | in every reachable state no delivery is reported twice by the same kind of worker, and acknowledgements follow reports |
| Delivery.AtMostTwoReports | src-server/src/operaciones.c:179-802 | a message is reported delivered at most twice: once by its send, once by a flush |
| Delivery.AcksNeverOutnumber | src-server/src/operaciones.c:190-202 | acknowledgements never outnumber reported deliveries, per message and in total |
| History.AcceptedIff | src-server/src/operaciones.c:664-728 | over every run a message counts as accepted, as the t-th, if and only if some step was a send between registered users that accepted it as the t-th |
| History.AcceptedAs | src-server/src/operaciones.c:681-716 | the record holds the message of that step: its recipient, its sender, the sender's next id, text and file name cut to 255 bytes |
| History.ReportedIff | src-server/src/operaciones.c:161-802 | over every run exactly the deliveries that succeeded are reported, each once, by the send or the flush that made them |
| History.OvertakenIff | src-server/src/operaciones.c:434-437 | over every run exactly the messages count as overtaken that a CONNECT detached while their own send was in flight |
| History.GoneIff | src-server/src/operaciones.c:308-347 | over every run exactly the names count as gone that were unregistered while they were known |
| History.ReleasedIff | src-server/src/operaciones.c:90-242 | over every run a node is released, and the way the record says, if and only if a step released it that way: the flush that delivered it, a settling send that found it first among the queued nodes of its key, or the end of its recipient |
| Acknowledgements.AlwaysTraced | src-server/src/operaciones.c:744-796 | in every run a send in flight will acknowledge if and only if its sender was connected when it was accepted, and the acknowledgements sent are exactly those due |
| Acknowledgements.AckedIff | src-server/src/operaciones.c:181-796 | over every run exactly the acknowledgements due are sent, each once: of a direct delivery if and only if the sender was connected when the message was accepted and its own send delivered it and reached the sender's listener; of a flush if and only if it delivered the message, found the sender connected then and reached its listener |
| Acknowledgements.OnlyConnectedSendersAcked | src-server/src/operaciones.c:186-205 | one half of it: only messages reported delivered are acknowledged, and only to senders connected when the message was accepted, or when its flush ended |
| Ledger.StepExtends | src-server/src/operaciones.c:105-242 | every step only adds to the record, and a released node stays released the way it was |
| Ledger.LedgerStaysSound | src-server/src/operaciones.c:75-823 | in every reachable state each removal by a send answers to one send of the same key and recipient that had reported its delivery, only unregistered recipients lose nodes, and a settled delivered send has removed its node or one of its key unless overtaken |
| Loss.IdsFollowPositions | src-server/src/operaciones.c:681-688 | in every run each message of a sender never unregistered has the id its position calls for, and the counter is where it should be |
| Loss.CleanIdsGrow | src-server/src/operaciones.c:681-688 | such a sender's ids are non-zero and strictly increasing up to 2^32 - 1 messages, and the counter is at least each of them |
| Loss.RemovalHitsOwnNode | src-server/src/operaciones.c:83-114 | for such a sender the removal by key never hits another message's node |
| Loss.CleanRemovalIsOwn | src-server/src/operaciones.c:105-111 | over any run, whatever send removed such a sender's node was its own and had reported the delivery |
| Loss.NoLoss | src-server/src/operaciones.c:681-816 | if the recipient was never unregistered and the sender is clean, an accepted message is queued for its recipient, in a detached list for it, or was itself reported delivered |
| Loss.MissingExactlyWhen | src-server/src/operaciones.c:75-242 | in a given state, without any assumption: an accepted message is in no queue, in no list for its recipient and unreported exactly when its node was discarded with its recipient or removed by another message's send and neither report was made; its own send may still be about to try |
| Loss.SecondDeliveryNeeds | src-server/src/operaciones.c:435-802 | in any run, a message reported twice was detached by a CONNECT while its send was in flight, or its send removed another message's node in place of its own |
| Loss.SecondDeliveryNeedsOvertaking | src-server/src/operaciones.c:435-456 | for a clean sender only the first is possible |
| Loss.FlushReportsStayPlaced | src-server/src/operaciones.c:179-208 | a message reported by a flush is at the head of a list being acknowledged or was released by that flush |
| Finality.LostForGoodIff | src-server/src/operaciones.c:75-802 | for every reachable state: no continuation has the message queued, in a list for its recipient or reported, if and only if neither report was made, its node was discarded or removed by another message's send, and its own send has nothing left to try |
| Finality.StepLosesIff | src-server/src/operaciones.c:90-812 | for every reachable state and every step: the step makes the message lost for good if and only if the message is unreported, and either the step takes its node away (an unregistration, a flush given back to nobody, or a delivered send whose first node of the key is this one and not its own) while its own send has nothing left to try, or the node was taken away before and the step is the failure of its last try |
| Finality.CanBeTwiceIff | src-server/src/operaciones.c:435-802 | for every reachable state: some continuation reports the message both ways if and only if its send has reported it or has still to try, and a flush has reported it or its node is not released |
| Finality.AtMostOnceIff | src-server/src/operaciones.c:718-802 | an accepted message is reported at most once in every continuation if and only if its recipient is not connected at acceptance, the guard of the direct delivery |
| Departures.DeliveredTwice | src-server/src/operaciones.c:435-802 | a concrete run in which a clean sender's message is reported twice |
| Departures.ReusedIdLosesMessage | src-server/src/linked_list.c:22 | a concrete run, with no worker left, after which a re-registered sender's message is lost in every continuation though its recipient was never unregistered |
| Departures.FailedFlushReorders | src-server/src/operaciones.c:226-234 | a concrete run in which a failed flush puts a clean sender's older message behind its newer one |
| Conservation.LedgerBalances | src-server/src/operaciones.c:75-823 | for each recipient and key, over any run: accepted = queued + detached + removed by sends + flushed + discarded |
| Conservation.RemovalsWithinDeliveries | src-server/src/operaciones.c:791-802 | for each recipient and key, removals by sends never exceed reported direct deliveries |
| SenderOrder.SpliceOrder | src-server/src/operaciones.c:226-234 | hanging the unsent suffix back keeps acceptance order exactly if everything queued is older than it |
| SenderOrder.InOrderIffOrderly | src-server/src/operaciones.c:216-246 | queues and detached lists are in acceptance order throughout a run if and only if every failed flush met that condition |
| SenderOrder.CounterCoversIds | src-server/src/operaciones.c:681-728 | a clean sender's counter is at least every id it has anywhere in the record |
| SenderOrder.SenderIdsIncrease | src-server/src/operaciones.c:226-728 | in such runs every queue and detached list holds a clean sender's ids in strictly increasing order |
| SerialRuns.ExactlyOnceInOrder | src-server/src/operaciones.c:132-823 | if each handler finishes before the next starts: for every recipient since its last registration, deliveries reported ++ queue = accepted, in order, and a connected recipient has nothing queued |
| SerialRuns.EveryHandlerFinishes | src-server/src/operaciones.c:142-250 | any operation can come next and its handler finishes: a flush takes at most one round per message it found |
| SerialEffects.SendEffect | src-server/src/operaciones.c:664-816 | the whole effect of one serialised send: nothing for unknown users; otherwise one accepted message, exactly one report if the recipient was connected and took it, and then exactly one acknowledgement if the sender was connected and took it; else the message queued behind what is there and the recipient disconnected; everybody else as before |
| SerialEffects.ConnectEffect | src-server/src/operaciones.c:142-456 | the whole effect of one serialised CONNECT: the queue delivered in order up to the first failure, one report each, one acknowledgement each to the senders connected by then that take it; after a failure the rest queued and the user disconnected; nothing for an unknown or connected user |
| Membership.RegisteredIff | src-server/src/operaciones.c:276-341 | over every run a name is registered if and only if some step registered it and no later one unregistered it |
| Membership.BirthIs | src-server/src/linked_list.c:22 | the record of when a user was last registered, on which the serialised runs rest, is the number of messages accepted before the step that registered it |
| Membership.StepConnectsIff | src-server/src/operaciones.c:413-429 | only a CONNECT of a registered, disconnected user connects it, under the ip and the port it came with, of which 15 bytes each are kept |
| Membership.StepDisconnectsIff | src-server/src/operaciones.c:217-811 | exactly four steps disconnect a user: its unregistration, a DISCONNECT from its own address, the end of a failed send to it, the end of a failed flush to it; every other step leaves its address alone |
| Membership.ConnectedIff | src-server/src/operaciones.c:217-811 | over every run a user is connected if and only if some step connected it and none disconnected it since |
| Membership.AddressIsLastConnect | src-server/src/operaciones.c:424-428 | over every run a connected user has the address of the CONNECT that connected it last |
| Membership.ReachIs | src-server/src/operaciones.c:736-753 | over every run the address a handler copies for a delivery or an acknowledgement is that of the user's last CONNECT, and there is none exactly if the user was disconnected since |
| Membership.OthersCannotDisconnect | src-server/src/operaciones.c:505-509 | no sequence of DISCONNECTs of a user from addresses other than the one it connected from changes anything |
| Membership.RegisterCode | src-server/src/operaciones.c:279-290 | 1 exactly for a registered name, and nothing changes; otherwise 0, and a blank record is all that is new |
| Membership.UnregisterCode | src-server/src/operaciones.c:321-347 | 1 exactly for an unknown name, and nothing changes; otherwise 0, and that user is all that is gone |
| Membership.ConnectCode | src-server/src/operaciones.c:410-437 | 1 exactly for an unknown name, 2 exactly for a connected one, and nothing changes; otherwise 0, with ip and port recorded and the queue emptied |
| Membership.DisconnectCode | src-server/src/operaciones.c:499-518 | 1 exactly for an unknown name, 2 exactly for a disconnected one, 0 exactly from the address the user connected from, 3 from any other; only 0 changes anything |
| Membership.SendCode | src-server/src/operaciones.c:667-679 | 1 exactly if sender or recipient is unknown, and then nothing changes |
| MessageList.Append | src-server/src/operaciones.c:718-728 | hanging a list behind the last node makes the list of both, in order, and changes only `next` fields of the first |
| MessageList.UnlinkFirst | src-server/src/operaciones.c:86-114 | unlinks the first node the comparison accepts, with the comparisons a caller can switch off, and keeps the rest in order |
| MessageList.UnlinkMessage | src-server/src/operaciones.c:799 | as the send handler calls it, the node unlinked is the first match of the whole message |
| LinkedServer.Server.FindUser | src-server/src/linked_list.c:86-106 | the walk returns the first node with the name, or null if there is none |
| LinkedServer.Server.AddUser | src-server/src/linked_list.c:6-37 | a blank record at the head, everything else as it was, the structure valid |
| LinkedServer.Server.RemoveUser | src-server/src/linked_list.c:39-84 | unlinks the user keeping order and contents of all others, releases the node and its whole queue once each and nothing else, and answers -1 with no change if the user is unknown |
| LinkedServer.Server.FreeUserList | src-server/src/linked_list.c:108-126 | releases every user node and queued message node, each once, and nothing else |
| LinkedServer.Server.FreeNodes | src-server/src/linked_list.c:73-78 | releases exactly the nodes of the list, each once |
| LinkedServer.Server.BumpId | src-server/src/operaciones.c:681-688 | the in-place increment with its zero check is the counter's next id; nothing else changes |
| LinkedServer.Server.AppendOwned | src-server/src/operaciones.c:226-234 | nodes owned by the caller end up behind the user's queue, in order, and belong to that queue alone; nodes others own are left alone and stay theirs |
| LinkedServer.Server.AppendNew | src-server/src/operaciones.c:690-728 | a newly allocated node at the end of the queue; all else, and whatever others own, as it was |
| LinkedServer.Server.Detach | src-server/src/operaciones.c:434-437 | the user's queue is empty and its nodes, in order, belong to the caller alone: none of them is a node that others own |
| LinkedServer.Server.Unlink | src-server/src/operaciones.c:86-114 | the queue without its first node of that key, which then belongs to the caller and nobody else; or unchanged if there is none |
| Sections.RegisterSection | src-server/src/operaciones.c:277-293 | does to the linked list what registering does to the map, answers the code the map dictates, and leaves what others own alone |
| Sections.UnregisterSection | src-server/src/operaciones.c:324-341 | the same for unregistering; the order of the others is kept; exactly the user's node and the nodes of its queue are released |
| Sections.ConnectSection | src-server/src/operaciones.c:408-447 | the same for connecting, with the ip and the port of the request recorded, 15 bytes of each; on success the worker gets exactly the old queue, which shares no node with what others own |
| Sections.DisconnectSection | src-server/src/operaciones.c:497-520 | the same for disconnecting; a connected user is answered 0 from its own address and 3 from any other (what the codes mean over a run is `Membership.DisconnectCode`) |
| Sections.EnqueueSection | src-server/src/operaciones.c:664-755 | the same for the first section of a send: id, node, append, also when sender and recipient are one user; and the addresses, copied under the mutex, to which delivery and acknowledgement go, if they are due |
| Sections.RemoveSection | src-server/src/operaciones.c:80-117 | the same for the removal by key; exactly the first node of that key is released, or nothing if there is none |
| Sections.MarkDownSection | src-server/src/operaciones.c:804-812 | the same for marking the recipient of a failed delivery |
| Sections.SpliceSection | src-server/src/operaciones.c:217-244 | the same for the end of a failed flush; if the user is gone exactly the rest of the list is released; what others own is left alone |
| Requests.ProcessRegister | src-server/src/operaciones.c:261-301 | from whatever the list is when the mutex is granted, the result and code of registering; the code is sent back over the request's connection, as far as it takes it |
| Requests.ProcessUnregister | src-server/src/operaciones.c:308-347 | the same for unregistering; exactly the user and its queue are released on top of what was released when the mutex was granted |
| Requests.ProcessDisconnect | src-server/src/operaciones.c:465-526 | the same for disconnecting: from whatever the list is when the mutex is granted, a connected user is answered 0 from its own address and 3 from any other |
| Requests.ProcessSend | src-server/src/operaciones.c:627-824 | a send under interference, with its connection to the client: what the first section stores, and the code, with the id text, that answers it; a call to the address the recipient had then takes what the network lets through of the message's frame; if that is all of it, which it is exactly if the connection opens and refuses no write, the first node of its key is removed and released, otherwise the recipient is marked down and nothing is released; the sender is acknowledged, at the address it had then, exactly if it was connected and the frame went out, with exactly the bytes that call takes |
| Requests.TookAllIff | src-server/src/operaciones.c:761-789 | what a call takes is a beginning of the frame, all of it exactly if the delivery counts as done, as it does over a connection that opens and refuses no write |
| Requests.FlushPending | src-server/src/operaciones.c:132-251 | under any failures and interference: exactly the frames of the messages before the first failure go out, in order, each over a call of its own to the one address, and a proper part of the next, whose connection is the first that does not open or refuses a write; each delivered node is released; exactly the senders found connected are called, at the address they have then, with exactly the bytes these calls take of the acknowledgement; exactly the rest goes back, in order, behind what is then queued, or is released if the user is gone |
| Requests.CallIsHeard | src-server/src/operaciones.c:161-176 | the recipient's listener shows a message that such a call delivered as it was stored, if it can be decoded, and raises otherwise |
| Requests.AckIsHeard | src-server/src/operaciones.c:186-205 | a connected sender is called at the address it has, and if it can be reached and takes it its listener shows the id, and the file of an attachment, of the message that was delivered |
| Requests.ProcessConnect | src-server/src/operaciones.c:355-458 | connect, answer, detach and flush: on success the ip and the port of the request are on record and the calls go there; the code is sent before the queue; the frames sent are those of a prefix of the queue found, their connected senders are acknowledged, and the rest of the queue goes back after a failure |
| Execution.Turn | src-server/src/operaciones.c:75-823 | any step of the protocol run over the linked lists and the workers' pointers gives what `Protocol.Apply` gives, whose record `History` and `Acknowledgements.AckedIff` pin to the steps, allocates and releases exactly the nodes it does, logs the same reports and acknowledgements, keeps the workers' lists chained, owned and disjoint, and leaves nodes owned outside alone |
| Execution.Schedule | src-server/src/operaciones.c:75-823 | the same for any schedule of steps, from any state |
| Execution.LockAmid | src-server/src/operaciones.c:277-791 | waiting for the mutex while others run any schedule keeps every promise of `Server.Lock` |
| Execution.Execute | src-server/src/operaciones.c:75-823 | a schedule run over an empty linked server is `Protocol.Run` of the same steps: users, workers, the messages reported and acknowledged in order, and the nodes released |
| Execution.QuietPointerIsNull | src-server/src/operaciones.c:718-823 | after any schedule, the queue pointer of a connected user towards whom no send is in flight is null |
| Execution.UnreportedIsOnTheHeap | src-server/src/operaciones.c:681-816 | after any schedule, a clean sender's message to a recipient never unregistered is linked into its recipient's queue, or into a list held for it, unless its delivery was reported |
| Execution.ReleasedOrLinked | src-server/src/operaciones.c:105-250 | after any schedule every message node ever allocated carries the accepted message of its tag, and either it is released and its tag was released exactly once, or it is linked into a user's queue or held by a CONNECT: nothing leaks and nothing is released twice or too early |
| Framing.ReadLine | src-server/src/mensajes.c:6-48 | the field cut to n - 1 bytes with its NUL in the buffer, the stream consumed through the terminator, nothing written past n, and nothing written at an immediate end of the stream |
| Framing.ScannedIsClean | src-server/src/mensajes.c:33-42 | whatever is read has no LF and no NUL inside |
| Framing.ScanOne | src-server/src/mensajes.c:16-44 | a clean field is read in full and the stream is left right behind its NUL, whatever interruptions there are |
| Framing.FieldsComeBack | src-server/src/mensajes.c:39-42 | any number of clean fields of any length come back, each cut to the buffer, none shifted, and what follows is untouched |
| Framing.LineFeedSplits | src-server/src/mensajes.c:34-35 | a field with an LF inside is read as two |
| Framing.ScanLast | src-server/src/mensajes.c:20-44 | a stream that ends without a terminator is one last field; one that breaks inside a field has none |
| Framing.LastFields | src-server/src/mensajes.c:20-47 | at the end of the stream the bytes that are left count as a field, and no other buffer is written |
| Framing.ReadSendRequest | src-server/src/operaciones.c:643-655 | the handler's buffers hold the successive fields of the request, a buffer whose field the stream ended inside is as it was, and a read error is reported |
| Framing.AllTakenIff | src-server/src/mensajes.c:53-60 | everything is sent exactly when no write is refused before the end |
| Framing.PartialWritesFinish | src-server/src/mensajes.c:53-56 | partial writes alone never keep a message from going out |
| Framing.SendMessage | src-server/src/mensajes.c:50-60 | any split into partial writes sends the data in full and in order; a refused write leaves a proper prefix and -1; no data needs one write |
| Framing.OutgoingAll | src-server/src/mensajes.c:50-60 | strings sent one after the other, each regardless of the fate of the others, all arrive over a connection without refused writes |
| Framing.RefusedAlone | src-server/src/operaciones.c:48-55 | a refused write costs its own string alone: the ones after it are tried |
| Framing.SentUntilIs | src-server/src/operaciones.c:774-784 | strings sent until the first is refused: a beginning of them goes out, all of it exactly if none is refused, and none is by partial writes alone |
| Frames.StringsComeBack | client.py:39-47 | strings written with their NULs are read back as they were |
| Frames.CutOffStrings | client.py:39-47 | strings cut off in transit are, as bytes, read as the full ones exactly when nothing but NULs is missing |
| Frames.ReadString | client.py:39-47 | the loop returns the strict decoding of the bytes up to the first NUL or the end, or raises if there is none or a reset comes first, and leaves the stream right behind |
| Frames.Listen | client.py:124-154 | the listener reads exactly the strings the operation calls for, in order, decodes each, and shows the event, or raises if one of them cannot be decoded or is cut off by a reset (for requests, which string is the asker and which the file is `FileExchange.RequestIsHeard`) |
| Frames.ListenerThread | client.py:104-188 | over any connections accepted one after the other, in any pieces, closed or reset: what is shown, up to the first string that cannot be read, which ends the loop |
| Frames.ResetShownIff | client.py:126-142 | of a message's frame followed by a reset the message is shown if and only if the whole frame came before it and can be decoded; otherwise the listener raises |
| Frames.SilentAfterRaise | client.py:180-188 | after a turn that raises, nothing that arrives is shown any more |
| Frames.HeardOnce | client.py:117-188 | what a single turn shows, and that only an exception ends the loop |
| Frames.HeardInOrder | client.py:117-188 | what later connections bring is shown behind what earlier ones brought, unless one of these ended the loop |
| Frames.OthersAreIgnored | client.py:124-149 | an operation with any other name is ignored, whatever comes behind it, and the loop goes on |
| Frames.ClosedIsHeardIn | client.py:39-47 | over a connection that is closed, not reset, every string is simply decoded: the theorems that follow a frame to the listener are about such connections |
| Frames.SameFrameIff | src-server/src/operaciones.c:161-786 | direct delivery and delivery from the stored node send the same bytes exactly when text and file needed no cutting |
| Frames.Transparent | src-server/src/operaciones.c:643-786 | from any request stream: both frames are the same bytes, and the listener shows exactly the fields the handler read if all of them can be decoded, and raises otherwise |
| Frames.ListenerRecovers | client.py:126-142 | the listener shows sender, id, text and file of the stored message, decoded, exactly if each of them can be, and the id text is the number |
| Frames.FailedYetShownIff | src-server/src/operaciones.c:164-176 | a frame cut off after k bytes, a failed delivery, is shown in full exactly when the message can be decoded and nothing but NULs is missing, and that is the last byte alone if the last string is not empty |
| Frames.AckRecovers | client.py:133-147 | the sender's listener shows the id, and the file of an attachment if its name can be decoded; otherwise it raises |
| Frames.Deliver | src-server/src/operaciones.c:770-786 | for any connection, exactly what it takes of the frame's strings up to the first that is refused; the delivery counts as done exactly if the connection opens and refuses none, and exactly if the whole frame went out |
| Frames.SendAck | src-server/src/operaciones.c:38-58 | behind whatever went out before, exactly what the connection takes of each string of the acknowledgement, also after a refused write; nothing without a connection |
| Frames.AckArrives | src-server/src/operaciones.c:38-58 | over a connection without refused writes the whole acknowledgement arrives |
| Frames.ReadAnswer | client.py:555-579 | what the sender's client makes of any answer to a send, closed or reset: the id, a refusal, a failure or an exception |
| Frames.CutAnswerIff | client.py:555-569 | the client is told the id if the whole answer arrives, or all but its last NUL before a close; cut off earlier a close makes it take a shorter number for the id, and a reset makes it report a failure |
| Answers.CodeArrives | src-server/src/operaciones.c:296-300 | a code arrives exactly if its write is not refused |
| Answers.Session.Register | client.py:198-240 | the result for any answer |
| Answers.Session.Unregister | client.py:252-298 | the result for any answer, and that the client stops acting for the user exactly if it is told OK for its own |
| Answers.Session.Connect | client.py:312-367 | the result for any answer, and that the client acts for the user and listens exactly if it is told OK; without asking if it listens already |
| Answers.Session.Disconnect | client.py:460-508 | the result for any answer; without asking for another user than its own, and otherwise the client stops listening whatever the answer |
| Answers.ActsForIff | client.py:90-508 | over all the client has asked, with any answers: it acts for a user if and only if it was told OK when it connected as that user and since then neither was told that the user is unregistered nor asked to be disconnected; it listens exactly while it acts for somebody |
| Answers.Unasked | client.py:313-463 | listening already it answers a CONNECT with a user error, and a DISCONNECT of another user with an error, without asking the server |
| Answers.RegisterTold | client.py:225-235 | both ends: OK exactly if the name was free, a user error exactly if it was registered, an error exactly if the answer was lost |
| Answers.UnregisterTold | client.py:280-293 | both ends: OK exactly if the name was registered, a user error exactly if not |
| Answers.ConnectTold | client.py:346-362 | both ends: OK exactly if the user was registered and not connected, a user error exactly if not |
| Answers.DisconnectTold | client.py:486-502 | both ends: OK exactly from the address the user connected from, an error from any other, a user error if it is not connected or unknown |
| Answers.SendTold | client.py:560-576 | both ends, closed or reset: the sender is told that a user is unknown exactly if sender or recipient is, and otherwise the id under which the message was accepted |
| Answers.OtherCodesFail | client.py:231-438 | any byte other than the codes the handlers answer with is a failure |
| Answers.IdIsShown | client.py:562-566 | the id shown is the text behind the code 0, decoded; text that cannot be decoded raises |
| RecordSizes.AlwaysFits | src-server/src/operaciones.c:425-428 | in every run names and addresses respect the server's buffers, if the names read do |
| RecordSizes.NeverTruncated | src-server/src/operaciones.c:605 | in no run a USERS record is truncated at 512 bytes |
| UsersReply.RecordComesBackIff | client.py:421-427 | the record can be decoded if and only if its three fields can, and the client reads the three fields back if and only if none has "::" or outer white space besides |
| UsersReply.Client.Refresh | client.py:396-441 | the result code or exception, and the directory it leaves, for any reply, closed or reset: refusals leave it alone, an exception or a reset after the count leaves it cleared and refilled up to the record that could not be read (which refusal gives which result is `Addresses.RefusedIff`) |
| UsersReply.RaisesIff | client.py:407-427 | the request raises in the client exactly if some connected user's name, address or port cannot be decoded |
| UsersReply.OddCount | client.py:408-417 | a count that cannot be read or that int() refuses raises with the directory left alone; one that is no number counts as none and clears it |
| UsersReply.DirectoryIsTheRegistryIff | client.py:407-427 | after a reply to a connected requester the client's directory is exactly the map from connected names to address and port, whatever it held before, if and only if every connected user's record can be decoded and has no "::" and no outer white space |
| UsersReply.ReplyArrives | src-server/src/operaciones.c:559-616 | over a connection without refused writes the reply arrives whole |
| UsersReply.ConnectedParts | src-server/src/operaciones.c:602-611 | the connected users are listed in the order of the list |
| Addresses.ConnectIsPrinted | src-server/src/operaciones.c:424-605 | after a successful CONNECT from ip with port, each of at most 15 bytes, the USERS record is the name, that ip and that port, whole, in this order, with " :: " between them |
| Addresses.ConnectIsListed | client.py:415-427 | and the directory any connected requester builds maps the decoded name to exactly (ip, port), if the records can be read back |
| Addresses.ReachIsListed | src-server/src/operaciones.c:736-753 | the server calls a user at the address the directory shows for it |
| Addresses.DirectoryIsTheRun | client.py:397-427 | after any run the directory holds exactly the users that some step connected and none disconnected since, each under the ip and the port of that step |
| Addresses.RefusedIff | client.py:431-438 | for any list and any requester: it is told of a user error if and only if it is registered and not connected, and of an error if and only if it is unknown; both keep their directory |
| Addresses.RefusedOver | client.py:431-438 | over a connection that is reset a refusal reads the same |
| Addresses.RefusedInRun | src-server/src/operaciones.c:562-581 | the same told from the steps of a run |
| CutReply.CutReplyAcceptedIff | client.py:402-429 | cut off after any number of bytes and closed, the reply is an error if none arrived, counts as OK exactly if the cut is not inside a character, and raises otherwise, with the directory holding exactly the entries whose records arrived whole |
| CutReply.CutReplyIff | client.py:407-427 | cut off after any number of bytes and closed, the reply leaves the result and the directory of the whole reply if and only if nothing but NULs and spaces is missing |
| CutReply.CutRecordIff | client.py:421-427 | a beginning of a record makes the user's entry if and only if nothing but the space before an empty port is missing |
| CutReply.ResetReplyIff | client.py:396-443 | after a reset the reply counts as the whole reply if all of it came before, and otherwise as an error: with the directory as it was up to the end of the count, and after it with exactly the entries whose records arrived whole |
| UsersRequest.CountConnected | src-server/src/operaciones.c:589-593 | the first pass counts the connected users, as a 32-bit number |
| UsersReply.AnnouncedReads | src-server/src/operaciones.c:589-596 | the text sent reads as that number |
| UsersRequest.SendRecords | src-server/src/operaciones.c:602-611 | the second pass sends one record per connected user, in list order: as many as were counted |
| UsersRequest.Standing | src-server/src/operaciones.c:562-582 | code 2 for an unknown requester, 1 for a disconnected one, 0 otherwise |
| UsersRequest.ProcessUsers | src-server/src/operaciones.c:559-616 | for any connection, exactly what it takes of each piece of the reply of the registry found under the mutex, which is left as it was |
| FileTransfer.PumpedIs | client.py:168-177 | a failing read stops the stream at a multiple of 4096 bytes, unless the end of the file was seen before it |
| FileTransfer.Serve | client.py:149-177 | for any connection, exactly what a request for a file is answered with, chunk by chunk, including the "-1" of each kind of failure, a refused write among them |
| FileTransfer.ServedCalmly | client.py:149-177 | over a connection without refused writes that is the size and the file, or the refusal |
| FileTransfer.ServedUpTo | client.py:149-177 | whatever the connection refuses, a beginning of the size and the file goes out, and behind any that is not all of it the error mark is tried |
| FileTransfer.GetFile | client.py:701-748 | succeeds exactly if the announced number of bytes arrives, for any segmentation and any announcement, in whatever digits, and never reads past them; the fate of the local file in every other case; ends on the bytes pending |
| PythonText.PlainInt | client.py:704-708 | for ASCII text isdigit() and int() accept exactly the decimal digits and give the number they spell, whatever the Unicode tables |
| PythonText.OneOddDigit | client.py:704-710 | in other text one character that is no digit fails isdigit(), and one that is a digit but not a decimal one passes it and makes int() raise |
| PythonText.SpacesAre | servicio_web.py:14-22 | the white space that split() and strip() know, code point by code point |
| FileTransfer.FaithfulTransfer | client.py:701-739 | a readable file of the announced size arrives whole, whatever follows it |
| FileTransfer.RefusalIsNoFileIff | client.py:704-707 | a file without a size is refused with the local file untouched; one that cannot be opened passes only if at most three bytes long |
| FileTransfer.BrokenReadUnnoticedIff | client.py:175-177 | a read error of the sender goes unnoticed exactly when at most three bytes were missing, and does no harm exactly when they happen to be those of the mark |
| FileTransfer.ChangedFileIff | client.py:160-173 | if the content changed after the size was taken, the file is faithful exactly if its length did not change |
| FileTransfer.EarlyClose | client.py:727-734 | a close before the end is never taken for a whole file and leaves no partial one; for an empty file it may be, rightly |
| FileTransfer.ResetLeavesPartIff | client.py:716-748 | a reset leaves a partial file exactly when the size arrived and not all bytes did |
| FileTransfer.TransferredUpTo | client.py:714-734 | the receiver's files after any part of the file: its content under the local name if all of it came, the part that came if a reset cut it off, no such file if a close did; no other file changes |
| FileExchange.RequestIsHeard | client.py:149-154 | the frame of a file request, in any pieces, closed or reset, whatever follows it, is heard as exactly its asker and its file if both can be decoded, and raises otherwise |
| FileExchange.CutRequestRaises | client.py:149-154 | cut off by a reset it is never heard |
| FileExchange.SendRequest | client.py:692-699 | for any connection, exactly what it takes of the three strings, in order, up to the first that is refused; it raises exactly if one is |
| FileExchange.Fetch | client.py:688-748 | the request and what comes back: without a whole request the local file is left alone, otherwise it has the fate the answer dictates |
| FileExchange.ServeTurn | client.py:117-177 | one turn of the listener with its files: a request is answered with the size and the content of the file it names, or with the refusal; nothing else is answered |
| FileExchange.FetchedIsNamed | client.py:149-739 | both ends together: the requester gets exactly the content of the file it named if its peer has that file and the local one can be opened, and its local file is left alone otherwise |
| FileExchange.FetchedInto | client.py:149-739 | the requester's files then: the peer's content under the local name, or all of them as they were |
| Normalizer.WordsOfJoin | servicio_web.py:14-22 | splitting undoes joining for any list of words |
| Normalizer.NormalizeIsIdempotent | servicio_web.py:14-22 | normalising keeps the words and does nothing the second time |
| Normalizer.NormalFormIff | servicio_web.py:14-22 | two texts have the same normal form exactly when they have the same words |
| Normalizer.FixedIffTidy | servicio_web.py:14-22 | a text is left alone exactly if it has no outer, double or other than plain spaces, and the result is such a text |
| Normalizer.SameLetters | servicio_web.py:14-22 | no character other than spaces is added or dropped |
| Normalizer.CommandKeepsTheWords | client.py:797-812 | a SEND or SENDATTACH line is a command exactly if it has enough words, and every word of it ends up, in order, in the recipient, the message or the file |
| Normalizer.ServiceChangesNothing | client.py:797-810 | the message of any SEND or SENDATTACH line is in normal form already and not empty |
| Normalizer.ShellFieldsAreClean | client.py:761-810 | every field a NUL-free command line can send for SEND or SENDATTACH meets the framing's demand |
| Normalizer.CommandReachesHandler | client.py:615-628 | from the typed line to the handler: the reads yield exactly sender, recipient, message and file, each cut to its buffer |
| Utf8.DecodeEncode | client.py:47 | strict decoding undoes encoding, for every text |
| Utf8.DecodeIff | client.py:47 | bytes decode to a text exactly if they are its encoding |
| Utf8.KnownEncodings | client.py:47 | the first and last code points of the four ranges are encoded as section 3 of RFC 3629 lays them out |
| Utf8.DecodeJoin | client.py:47 | bytes with an ASCII byte between them decode exactly if both sides do |
| Utf8.EncodedIsCleanIff | client.py:615-628 | encoded text has no byte that ends a field exactly if the text has no NUL and no LF |
| Utf8.CutDecodesIff | client.py:47 | encoded text cut to its first n bytes is decoded exactly if the cut falls between two characters, and then to the text up to there |
| Utf8.KeptTextIff | src-server/src/mensajes.c:39-42 | what a buffer keeps of a text decodes to the text if it fits, and otherwise exactly if the buffer ends between two characters |
| EndToEnd.CommandReachesReader | client.py:47-142 | from the typed line to the recipient's listener, delivered at once or stored and flushed: sender, id, message and file are shown as typed, each cut to 255 bytes, exactly if none of them is cut inside a character, and otherwise nothing is shown and the listener raises |

## Left out

- Sockets, `bind`, `accept`, thread creation and `getpeername`: a delivery is an oracle's answer, a peer address a
  parameter. `socket` and `connect` failures are the answer "not delivered".
- `Protocol` does not say which address a call goes to, and lets the oracle answer for any; the handlers' contracts in
  `Requests` do.
- The RPC log client and server: return values are ignored and the messaging state is not touched.
- SIGINT: the handler frees the list without the lock while threads may run; `FreeUserList` covers the freeing alone.
- The SOAP set-up and calls: only the text function matters. A failing service makes the client abort the send.
- Allocation failure: registering ignores it, and a send would use up an id and store nothing; the model assumes success.
- Handlers after a read error, and after an end of stream inside a field, where `readLine` leaves the buffer as it
  was: `Framing.ReadLine` covers both cases, the handlers' theorems start from terminated fields.
- Writing zero bytes for ever: a write script is finite, so the loop of `sendMessage` ends when the script does.
- PythonText.PlainInt: Python's limit of 4300 digits for int() is not modelled; which other characters are digits is a parameter, constrained on ASCII only.
- Handlers in `Requests` run against any interference that `Lock` allows; that their sections follow one another as the protocol's steps do is stated step by step (`Execution.Turn`), not for whole handlers.
- Frames.ListenerThread: the loop also ends when serving a file request raises, as when the peer is gone before the refusal; the model stops at what is shown, and `FileTransfer.Serve` says what is sent.
- Upper-casing the command word, usage texts and the other commands of the shell: easy branches.
- The lookup in the client's directory before a file request, and the checks, before a send, a USERS or a file request, that the client acts for a user at all: easy branches.
- Write errors on the local file during a transfer: they behave like a reset, with the part written left behind.
- `_recibir_bytes`: the client defines it and does not use it.
- Registry.Compose keeps the sender uncut: the handler's buffer already bounds it to 255 bytes.
- Timing, fairness and whether the peer processed what it received: "delivered" means that the server's writes all succeeded.
