# Verified models of the Beken firmware glue

This project models the self-contained pieces of a Wi-Fi SoC firmware whose
behaviour is hard to see from any one function, and proves what they keep over
every input, every run or every interleaving. Each Dafny file is one component:

| file | component |
|---|---|
| `RoleLaunch.dfy` | the role launcher that schedules station and access point requests |
| `Tftp.dfy`, `TftpStore.dfy` | the TFTP receiver, its servers and channels, and the image writer behind it |
| `NetParam.dfy` | the network parameter table on flash |
| `Ftp.dfy` | the FTP server's RETR path and its fifo |
| `OtaFlash.dfy` | the HTTP over-the-air writer |
| `PingPong.dfy` | the two-slot buffer between the receive interrupt and the airkiss thread |
| `Base64.dfy` | the base64 codec and the HTTP client's own encoder |
| `PowerSave.dfy` | RF sleep and wake-up |
| `List.dfy`, `Peers.dfy` | the intrusive circular list and the peer table on it |
| `Kfifo.dfy` | the byte fifo with free-running counters |
| `Clock.dfy` | the tick counter, its catch-up and the tick debt |
| `Channels.dfy` | in-place channel selection |
| `Button.dfy` | the debounced button automaton |
| `Flash.dfy`, `Ring.dfy`, `Bits.dfy`, `Options.dfy` | NOR flash, byte rings, 32-bit arithmetic and masks, optional values |

`dafny verify dfyconfig.toml` checks everything.

## How the models are built

Code that updates fields, buffers or lists in place is a class (or a method on
arrays and nodes) whose postconditions give the new state. Where several
contexts interleave (the launcher, the core thread before sleep, the ping-pong
buffer, the TFTP transfer) the model is a step system: every section that runs
with interrupts disabled, every access to shared state and every copied byte is a
step of its own, `Next` is total, and a theorem about `Exec` over any list of
actions is a theorem about every interleaving. In the TFTP transfer handling one
packet is one step: a timer that fires meanwhile sends at most one early
acknowledgement of the packet being handled, which is the same as the handler's
own acknowledgement followed by a repetition of it in the channel. The TFTP receiver, RF power save and the button appear in
both forms: a class whose methods are proved equal to functions on values, and
theorems about runs of those functions; a driver method runs any list of calls
on an object and ends where those functions say.

Flash is NOR flash: `Flash.Erase` sets a whole 4 KB sector to ones,
`Flash.Write` can only clear bits (`Flash.OnlyClears`), so a byte lands correctly only in a cell
that was erased before. Integer widths are written out: 32-bit counters wrap,
the button's 4-bit and 16-bit fields wrap, `base64_calc_encode_length` is
computed modulo 2^32.

The environment is part of the inputs: timer firings and flag writes of other
threads, packets lost, repeated or sent by third parties, send windows and
failed writes, samples, received pages, what the MAC answers to a sleep request.
The CRC is any function that folds over bytes.

## What the models show about the code

- The FTP fifo's doubling loop never ends for requests of 2^30 bytes or more
  (`Ftp.InitTerminates`), although the code's limit admits them.
- `base64_calc_encode_length` has room for the text exactly for inputs below
  2^30 bytes (`Base64.EncodeFits`); above, its 32-bit product wraps.
- `store_block` erases a sector only when a block begins exactly at it. With the
  requested 1024-byte payloads and an aligned start this covers everything
  (`TftpStore.RequestedSizeBegins`); with the default block size a payload of 488
  bytes straddles the second sector, which is then programmed without being
  erased (`TftpStore.DefaultSizeStraddles`). The image header goes to an address
  from the last block, which nothing keeps out of the data: its sector is erased
  (`TftpStore.HeaderInDataExample`). `TftpStore.DataAreaIff` is the exact condition
  for both.
- The over-the-air writer compares with `<`, so a body as long as the partition
  is not written completely; the flash holds the body exactly when it is shorter
  (`OtaFlash.WholeBodyIff`). Of a longer one, blocks that do not fit are skipped
  and the rest behind the last of them is still written (`OtaFlash.Download`).
- `store_block` subtracts the header length from the packet length in unsigned
  arithmetic. RFC 1350 ends an image whose size is a multiple of the block size
  with an empty packet, and the receiver hands that to `store_block` as well, which
  then asks for a write of almost 2^32 bytes. `Tftp.OverrunIff` is the exact
  condition; `Tftp.ExactMultipleOverruns` is such an image.
- A power-save disable that is handled while the station sleeps breaks the
  pairing of sleep flag and lock, exactly then (`PowerSave.LockStepIff`). The core
  thread wakes the station before it asks for the disable, and its gate before
  sleep lets no sleep pass while the request is with the kernel, although messages
  and events can still come between the gate's reads and the locked sleep
  (`PowerSave.SleepWindow`, `PowerSave.SleepsWithMessage`, `PowerSave.PromptLibrary`).
  What remains is a library that takes the request and calls the handler only later
  (`PowerSave.GateIff`, `PowerSave.DeferredBreaks`). The library is not part of the
  repository, so whether it does is not known here.
- With no new requests the launcher needs at most three launch callbacks to empty
  its slots (`RoleLaunch.AtMostThreeFirings`, `RoleLaunch.CanDrain`).
- The button's press counter has 4 bits: seventeen presses end in a single click
  (`Button.SingleClickIff`).
- `bk_aware_mod_peer` answers OK for a peer it does not know, and
  `bk_aware_add_peer` does not ask whether the table is in use, although its
  comment lists an error for that. `bk_aware_get_peer_num` returns the count as its
  result code, so only an empty table answers BK_OK, and 101 peers answer as an
  uninitialised one does. The models follow the code.
- After `TIMEOUT_COUNT` timeouts in all, not in a row, the TFTP receiver falls
  silent, and a packet from a third port redirects its next resend. Neither can
  corrupt a transfer, and the server's resends alone can always bring it to its
  end (`Tftp.NeverStuck`).

## Model

| member | source | states |
|---|---|---|
| `RoleLaunch.MutualExclusion` | components/joint_up/role_launch.c:1104-1119 | in every interleaving, while a thread that set PAUSE and saw the launcher idle is in its section, PAUSE is still set and no station or access point start is running |
| `RoleLaunch.PauseHolds` | components/airkiss/airkiss_main.c:449-456 | from any reachable point with PAUSE set and the status idle, no continuation that leaves PAUSE alone runs or begins a start |
| `RoleLaunch.StartsUnderStatus` | components/joint_up/role_launch.c:512-541 | a start begins only under PENDING or DOING, and neither bit is raised while PAUSE is set, for every step of every run |
| `RoleLaunch.NoStrandedRequest` | components/joint_up/role_launch.c:148-356 | outside the launch callback a queued request always has an armed launch timer, and the callback ends with the timer armed or all four slots empty |
| `RoleLaunch.BacklogFalls` | components/joint_up/role_launch.c:591-631 | with no new requests and open guards, each completed launch callback lowers twice the following plus the previous slots, whatever other threads do in between |
| `RoleLaunch.AtMostThreeFirings` | components/joint_up/role_launch.c:591-631 | with no new requests and open guards at most three launch callbacks complete, whatever other threads do; the six that twice the following plus the previous slots would allow never happen, because each re-arming uses up a queued request |
| `RoleLaunch.DrainedWhenQuiet` | components/joint_up/role_launch.c:148-356 | once one of them has completed, the timer is at rest only with all four slots empty |
| `RoleLaunch.CanDrain` | components/joint_up/role_launch.c:591-631 | from every reachable idle state with the timer armed some such run completes a callback and ends with all four slots empty and the timer at rest |
| `RoleLaunch.NoLostWakeup` | components/joint_up/role_launch.c:479-509 | in every run a request in the socket has the enter timer armed or is about to be taken; what becomes of it then say the next rows |
| `RoleLaunch.RequestWaits` | components/joint_up/role_launch.c:1046-1102 | a request made outside the enter callback stays in the socket with the enter timer armed until that fires, unless a later one of the same role replaces it |
| `RoleLaunch.RequestServed` | components/joint_up/role_launch.c:479-549 | with PAUSE clear an enter callback turns the station request last in the socket, and then the access point's, into a new entity of that request type: started at once if no role has one and no hold refuses it, else queued in an empty following slot with the launch timer armed, else dropped, whatever other threads do between its five steps |
| `RoleLaunch.RequestDropped` | components/joint_up/role_launch.c:511-546 | under PAUSE the callback ends with no entity made and the slots as they were |
| `RoleLaunch.WaitStep` | components/joint_up/role_launch.c:148-356 | a queued entity waits on in its slot or in the callback that took it until it is started in its own previous slot or that callback discards it |
| `RoleLaunch.DiscardCause` | components/joint_up/role_launch.c:158-184 | the callback discards what it took exactly under PAUSE or, for the station, a restart hold that is not being served |
| `RoleLaunch.QueuedStarts` | components/joint_up/role_launch.c:148-356 | in every run, as long as no PAUSE or hold is set, a queued entity goes on waiting until it is started |
| `RoleLaunch.DrainedMeansStarted` | components/joint_up/role_launch.c:591-631 | so once the slots are empty it was started |
| `RoleLaunch.CancelledBeforeReplaced` | components/joint_up/role_launch.c:188-206 | in every run a callback begins with the role pre_entity_type names, and a launched entity is told to cancel exactly when another waits behind it |
| `RoleLaunch.LimitCancels` | components/joint_up/role_launch.c:200-206 | and when its launches have used up its limit |
| `RoleLaunch.ReplacedOnlyAtAnEnd` | components/joint_up/role_launch.c:751-807 | a launched entity gives way exactly in these states of its role and of the channel switch; otherwise it stays and the callback ends |
| `RoleLaunch.ServedInTurn` | components/joint_up/role_launch.c:591-631 | pre_entity_type always names the role being served, so the next callback begins with the role the last one ended with |
| `RoleLaunch.StartLeavesClean` | components/joint_up/role_launch.c:954-1044 | a start leaves no cancel or status of an earlier launch of its role behind |
| `RoleLaunch.EntitiesOwnedOnce` | components/joint_up/role_launch.c:716-733 | in every run each allocated entity is held by exactly one slot or callback local, or was freed exactly once, and nothing else was freed |
| `RoleLaunch.SlotsDistinct` | components/joint_up/role_launch.c:148-356 | non-null slots are pairwise distinct and hold no freed entity; a stale previous slot exists only inside its own role's launch callback |
| `RoleLaunch.LaunchKeepsOccupancy` | components/joint_up/role_launch.c:148-356 | every step of the launch callbacks keeps which slots can be occupied at which point |
| `RoleLaunch.EnterAccounts` | components/joint_up/role_launch.c:381-477 | entering a request adds exactly the entity it allocates to those owned, or nothing |
| `Tftp.StoredInOrder` | app/tftp/tftpclient.c:160-315 | with lossy, repeating FIFO channels, several server sessions, third parties, any number of blocks and any packet lengths, `store_block` is called for a prefix of the packets, each once and in order, and unless a call overran the receiver stops exactly when it has handed over all of them |
| `Tftp.DataAreaIsPrefix` | app/tftp/tftpclient.c:464-568 | in every run, until the last block, the flash data area equals the payload of the packets with headers received so far if a block begins at every sector, and with all of them if its bytes are safe from old contents and from the image header, whatever the flash held before |
| `Tftp.HeaderOnlyIfCrc` | app/tftp/tftpclient.c:535-563 | in every run the image header is written only after every packet with a header, and then exactly if the CRC folded over exactly those blocks agrees with their trailer; a short last packet writes none |
| `Tftp.NeverStuck` | app/tftp/tftpclient.c:160-315 | every run, however many packets were lost or sent astray, has a continuation that completes the transfer or overruns; with a whole header in the last packet it completes |
| `Tftp.OverrunIff` | app/tftp/tftpclient.c:286-290 | for every block size, some run makes `store_block` write more than the receive buffer holds if and only if, with blocks of at least 24 bytes, the last packet is shorter than that and the address it is stored at is inside the window, and with smaller blocks, a packet with number 1 can name an address in the window |
| `Tftp.ImageOverrunIff` | app/tftp/tftpclient.c:512-514 | for an image that ends inside the window no store of any run overruns if and only if the last packet has at least 24 bytes |
| `Tftp.NeverOverruns` | app/tftp/tftpclient.c:464-568 | with a last packet of at least 24 bytes no run overruns, for any image |
| `Tftp.ExactMultipleOverruns` | app/tftp/tftpclient.c:298-306 | an image of exactly one default block, which RFC 1350 ends with an empty packet, has a run that overruns |
| `Tftp.CanLandIff` | app/tftp/tftpclient.c:472-494 | a packet shorter than a header can name an address in the window, with bytes left in the buffer behind it, exactly with at most 22 bytes, or with 23 whose last three name one |
| `Tftp.NumberWraps` | app/tftp/tftpclient.c:490-494 | an image of more than 65536 blocks has a run that stores block 65537, whose number is 1 again, at the address its header names, as if it were the first |
| `Tftp.Receives` | app/tftp/tftpclient.c:197-306 | a packet of the own session is acknowledged with its own number modulo 2^16; a repeated block changes nothing stored, the next block is handed over with its length, the last one stops the receiver |
| `Tftp.OneServer` | app/tftp/tftpclient.c:160-315 | for any packets from any ports: only packets from the port of the first option acknowledgement or data packet are answered or stored, each with its own number and data; a first data packet with another number than 1 is neither; the receiver stops at a packet shorter than the block size last agreed on |
| `Tftp.TimeoutSends` | app/tftp/tftpclient.c:317-334 | after any packets, the first ten timeouts send the request as long as no server has answered and then the acknowledgement of the last data packet; later ones, and those of a finished transfer, send nothing |
| `Tftp.TimerResends` | app/tftp/tftpclient.c:317-334 | in every run with servers that is the acknowledgement of the last block stored |
| `Tftp.Receiver.Handler` | app/tftp/tftpclient.c:160-315 | the handler's effect on state, block numbers, block size, receive buffer, flash and answer is that of `Tftp.Handle`, for every packet of any length and every port |
| `Tftp.Receiver.StoreOne` | app/tftp/tftpclient.c:464-568 | erase, window test, the payload length in unsigned 32 bits, write, CRC and header have together the effect that the run theorems fold over all calls; a write longer than the receive buffer is recorded |
| `Tftp.FeedAll` | app/tftp/tftpclient.c:417-422 | any list of packets and timeouts leaves a receiver object, its flash and its answers as the functions say |
| `Tftp.Receiver.Timeout` | app/tftp/tftpclient.c:317-334 | only the first ten timeouts of a transfer send anything, as the timeout theorems assume |
| `Tftp.Receiver.constructor` | app/tftp/tftpclient.c:336-371 | a transfer starts requesting, with the default block size and no block |
| `TftpStore.WholeImage` | app/tftp/tftpclient.c:464-568 | after all blocks every cell of the flash: the payload byte programmed onto an erased cell or onto its old contents, as the block layout says, and then what writing the image header makes of it; headers are counted |
| `TftpStore.WriteFits` | app/tftp/tftpclient.c:514-514 | the unsigned length minus 24 stays inside the receive buffer exactly for packets with a whole header |
| `TftpStore.LongCall` | app/tftp/tftpclient.c:464-568 | a packet with a whole header is stored the same whatever the buffer holds behind it |
| `TftpStore.ShortCall` | app/tftp/tftpclient.c:506-514 | a shorter packet overruns exactly when its address is inside the window, and writes no header |
| `TftpStore.DataAreaIff` | app/tftp/tftpclient.c:497-554 | the data area is right for every earlier flash contents if and only if each byte is safe: a block began at its sector or it is zero, and the header does not erase or clear it |
| `TftpStore.SafeIffBegun` | app/tftp/tftpclient.c:497-503 | with the header away from the data, or none written, that means that a block begins at every sector that receives anything but zeros |
| `TftpStore.HeaderInDataExample` | app/tftp/tftpclient.c:552-554 | an image whose header address lies in its own data: every sector is begun and the CRC agrees, and writing the header destroys the data |
| `TftpStore.RequestedSizeBegins` | app/tftp/tftpclient.c:98-100 | the block size the client asks for, from an aligned start, meets that condition |
| `TftpStore.DefaultSizeStraddles` | app/tftp/tftpclient.c:497-503 | the default block size does not, as soon as the second sector's first byte is not zero |
| `TftpStore.DefaultSizeExample` | app/tftp/tftpclient.c:497-503 | nine default blocks from an aligned start are such an image, and some earlier flash contents make its data area wrong |
| `TftpStore.HeaderInSector` | app/tftp/tftpclient.c:542-554 | so a header inside one sector is on flash as a whole, where nothing cleared bits of it |
| `TftpStore.HeaderWords` | app/tftp/tftpclient.c:542-554 | each of its words by offset, in terms of the last packet's own bytes: data address, length, both addresses of the first system, header address, CRC, status 1 |
| `TftpStore.OutsideWindow` | app/tftp/tftpclient.c:497-510 | for any block at any address below 0x27000 or from 0x200000 on: nothing is written, but the sector that begins at the address is erased |
| `TftpStore.InsideWindow` | app/tftp/tftpclient.c:512-568 | for any block at any other address: the next address, the CRC, and a header written exactly for a block that says it is the last and whose running CRC agrees |
| `NetParam.SavesAreMap` | components/net_param_intf/net_param.c:168-263 | after any sequence of saves the items have distinct types and their own lengths, and each type maps to the value saved last under it, zero padded |
| `NetParam.TableSmall` | components/net_param_intf/net_param.c:254-257 | a table of the declared items never exceeds 280 bytes |
| `NetParam.Store.Save` | components/net_param_intf/net_param.c:168-263 | answers whether the buffer could be allocated; if so the flash holds the table with exactly this item updated or appended and cells outside its sectors are untouched, if not nothing changes |
| `NetParam.Store.Get` | components/net_param_intf/net_param.c:98-166 | succeeds exactly for a stored declared type with all the result pointers that type needs, and returns the parts of the stored value |
| `NetParam.Store.SearchTable` | components/net_param_intf/net_param.c:10-30 | finds a table exactly when one was saved, with its length |
| `NetParam.Store.SearchItem` | components/net_param_intf/net_param.c:32-63 | terminates and returns the address of the item of that type, or 0 when there is none |
| `NetParam.SearchLoopsIff` | components/net_param_intf/net_param.c:32-63 | on any flash contents the search runs for ever if and only if within as many rounds as the end address it comes back to an address without having stopped |
| `NetParam.SearchSticks` | components/net_param_intf/net_param.c:42-54 | such a table exists: an item of another type whose length is 2^32 - 8 |
| `NetParam.SaveAllThenGet` | components/net_param_intf/net_param.c:98-263 | any saves of declared items on a partition without a table, then a get, yield the last value saved under that type |
| `NetParam.SplitPadded` | components/net_param_intf/net_param.c:118-161 | what a get hands out of a saved value is what the save was given, the first argument zero padded |
| `NetParam.SavedComesBack` | components/net_param_intf/net_param.c:210-246 | the MAC address comes back as its six bytes in eight, name and key as 32 and 64, the three addresses as 16 each, the charge calibration as three bytes in four, any other parameter as four |
| `NetParam.DeclaredKinds` | components/include/net_param_pub.h:7-20 | the declared types are the eleven multiples of 0x11111111 |
| `Ftp.Retrieve` | app/ftp/ftpd.c:386-482 | for every pattern of send windows, refused writes and short reads, TCP took a prefix of the file, 226 implies all of it, and 2 * size + 2 good calls suffice |
| `Ftp.Transfer.SendData` | app/ftp/ftpd.c:386-428 | bytes taken by TCP followed by bytes queued never change; how many are taken in each case, none of a refused write and only the first half when the second half of a wrapped write is refused |
| `Ftp.Transfer.SendFile` | app/ftp/ftpd.c:430-482 | taken plus queued equals what was read; how much one callback reads and how much TCP takes after it; 226 is sent exactly by a callback that finds the file closed and the fifo empty, and then the whole file was taken; a good call makes progress |
| `Ftp.Sfifo.Write` | app/ftp/ftpd.c:305-334 | appends as many bytes as there is space for, across the wrap and with positions 0 to size |
| `Ftp.Sfifo.constructor` | app/ftp/ftpd.c:264-290 | the smallest power of two above the requested room |
| `Ftp.UsedIsMask` | app/ftp/ftpd.c:254-257 | the masked difference of positions 0 to size is the number of bytes queued |
| `Ftp.InitTerminates` | app/ftp/ftpd.c:281-283 | the doubling loop ends exactly for requests below 2^30 |
| `OtaFlash.Download` | app/http/utils_httpc.c:722-729 | however a body is split, the partition begins with its whole blocks as far as they fit and, directly behind them, what follows its last block boundary; the flash was used with erase before program, the log accounts for every changed cell, and no cell outside the partition changed |
| `OtaFlash.WholeBodyIff` | app/http/utils_httpc.c:445-447 | that is the body if and only if it is shorter than the partition |
| `OtaFlash.OutsideKept` | app/http/utils_httpc.c:433-463 | a flash whose changes such a log accounts for keeps its cells outside the partition |
| `OtaFlash.LastSound` | app/http/utils_httpc.c:433-463 | the erases and writes of any number of blocks and a rest keep erase before program |
| `OtaFlash.Writer.Receive` | app/http/utils_httpc.c:509-532 | the whole blocks of the stream received are on flash as far as they fit, and its rest is pending |
| `OtaFlash.Writer.FlashWr` | app/http/utils_httpc.c:433-463 | appends the buffer behind what is on flash if it ends before the partition does; which sector is erased and what is written before that |
| `OtaFlash.Writer.Finish` | app/http/utils_httpc.c:722-729 | after the final flush the flash holds those blocks followed by the rest of the stream |
| `OtaFlash.Writer.constructor` | app/http/utils_httpc.c:466-494 | a session starts at the partition's start with nothing pending |
| `OtaFlash.MayErase` | app/http/utils_httpc.c:438-443 | an erase at the next free place stays inside the partition and hits no cell programmed in this session |
| `OtaFlash.MayProgram` | app/http/utils_httpc.c:445-461 | every byte written goes to a cell erased in this session and not programmed since |
| `PingPong.FirstInFirstOut` | components/airkiss/airkiss_pingpong.c:9-88 | in every interleaving of one writer and one reader at most two frames wait and the n-th frame read is the n-th accepted, with its length |
| `PingPong.QueueOfTwo` | components/airkiss/airkiss_pingpong.c:9-88 | with whole frames the sequence read is exactly a prefix of the sequence accepted |
| `PingPong.RefusedOnlyWhenFull` | components/airkiss/airkiss_pingpong.c:67-73 | a write is refused exactly when both slots are unreleased; a read finds nothing exactly when all accepted frames were read |
| `PingPong.WriteCallPasses` | components/airkiss/airkiss_pingpong.c:52-73 | from every reachable state a write call with a free slot gets past its test |
| `PingPong.WriteCompletes` | components/airkiss/airkiss_pingpong.c:75-87 | and then at most 26 steps of the writer, whatever the reader does in between, accept exactly its frame |
| `PingPong.ReadCallPasses` | components/airkiss/airkiss_pingpong.c:9-33 | a read call with a frame waiting gets past its test, for at most 24 bytes |
| `PingPong.ReadCompletes` | components/airkiss/airkiss_pingpong.c:33-48 | and then at most two steps more than that deliver exactly as many bytes, whatever the writer does in between |
| `PingPong.NeverTheSameSlot` | components/airkiss/airkiss_pingpong.c:23-85 | the writer never touches the slot being copied out |
| `Base64.RoundTrip` | components/base64/base_64.c:136-201 | decoding an encoding, or any text that differs from it only in bytes outside the alphabet, gives back the bytes |
| `Base64.SymIsAlphabet` | components/base64/base_64.c:7-18 | the table is the alphabet of RFC 4648 in order |
| `Base64.GroupBits` | components/base64/base_64.c:53-86 | 24 bits are four sextets, the most significant first; a shorter last group is filled with zero bits and pads |
| `Base64.FeedsAt` | components/base64/base_64.c:53-89 | line feeds stand behind every 72 characters and at the end, and nowhere else |
| `Base64.DecodesIff` | components/base64/base_64.c:136-201 | any text decodes exactly when whole blocks of four are left without the bytes outside the alphabet, to three bytes a block less the last block's padding |
| `Base64.InsertJunk` | components/base64/base_64.c:171-188 | a byte outside the alphabet changes no decoding, anywhere in any text |
| `Base64.EncodeFits` | components/base64/base_64.c:23-30 | for every length an int can hold, text, line feeds and NUL fit the computed size if and only if the length is below 2^30 |
| `Base64.EncodeInto` | components/base64/base_64.c:40-93 | a null buffer is refused; any other holds the encoding with line feeds, then NUL |
| `Base64.DecodeInto` | components/base64/base_64.c:136-201 | each of no table memory, text not in whole blocks and null buffer is answered with its length; otherwise the decoded bytes without the padding are written |
| `Base64.CalcDecodeLength` | components/base64/base_64.c:99-125 | the number of characters that count, or 0 also without memory for the table, and never less than the decoded length |
| `Base64.HttpEncode` | app/http/utils_httpc.c:64-83 | the bit accumulator, taken modulo 2^32, yields base64_encode's text without line feeds |
| `Base64.UnlinedEncode` | components/base64/base_64.c:40-93 | removing the line feeds from base64_encode's text leaves the plain encoding of RFC 4648 |
| `PowerSave.SleepLockStep` | components/power_save/power_save.c:120-212 | in every run without a disable handled asleep: sleeping if and only if the lock is 0, the wake-up assertion holds, "error ps" is not reached, and the MAC's six interrupts and its wake-up follow the sleep flag while all others stay |
| `PowerSave.LockStepIff` | components/power_save/power_save.c:672-706 | sleep flag and lock agree all through a run if and only if no disable is handled while asleep |
| `PowerSave.WakeThenDisable` | components/power_save/power_save.c:736-785 | a user wake-up always ends awake, so a disable directly after it is safe |
| `PowerSave.WhatWakes` | components/power_save/power_save.c:86-107 | in every run without a disable handled asleep a sleeping station is awake, with the lock taken and its interrupts restored, after a MAC interrupt with the wake-up bit or a user request, and sleeps on after one without the bit |
| `PowerSave.FallsAsleepIff` | components/power_save/power_save.c:120-212 | an awake one falls asleep exactly in DTIM mode with the network up, the beacon heard or the user having woken it, sleep allowed, the MAC idle and the sleep granted; otherwise nothing changes |
| `PowerSave.NeedsBeacon` | components/power_save/power_save.c:316-354 | woken by the MAC it needs its beacon before the next sleep, woken by the user it does not |
| `PowerSave.DisabledStaysAwake` | components/power_save/power_save.c:672-706 | a disabled station does not sleep before it is enabled again |
| `PowerSave.DisableForgets` | components/power_save/power_save.c:672-706 | and then needs its beacon anew |
| `PowerSave.EnabledMaySleep` | components/power_save/power_save.c:605-639 | enabling lets a connected station sleep and leaves any other as it was |
| `PowerSave.WakeReasons` | components/power_save/power_save.c:736-785 | a run gives no other wake-up reason than the MAC's and the user's |
| `PowerSave.AnyReason` | components/power_save/power_save.c:364-403 | for any reason: reasons 1 to 4 wake, and the user wakes a station with none or with the upload ping's |
| `PowerSave.GateIff` | components/power_save/power_save.c:407-430 | in every interleaving of the core thread, whose gate reads the events and the queue unlocked before the locked sleep, with interrupts and other threads, sleep flag and lock agree all through if and only if the library never calls a deferred disable handler asleep |
| `PowerSave.PromptLibrary` | app/app.c:585-662 | a library that calls the handler when the kernel hands it the request keeps the pairing in every such interleaving |
| `PowerSave.SleepWindow` | components/power_save/power_save.c:407-424 | the station falls asleep only in the locked sleep behind the gate, and then no disable request is with the kernel; messages and events may have come since the reads |
| `PowerSave.SleepsWithMessage` | components/power_save/power_save.c:412-424 | a disable message posted between the reads and the locked sleep leaves the station asleep with it queued; handling it wakes the station first |
| `PowerSave.DeferredBreaks` | components/power_save/power_save.c:672-706 | if the library defers, a sleep the gate allows breaks the pairing and the next sleep ends in "error ps" with the interrupts off |
| `PowerSave.StepKeeps` | components/power_save/power_save.c:86-107 | every event keeps the lock step and the interrupt enables |
| `PowerSave.RunEvents` | components/power_save/power_save.c:86-785 | any events on a power-save object end as the run of the functions does |
| `PowerSave.RfPowerSave.GoToSleep` | components/power_save/power_save.c:120-212 | the sleep attempt's effect in every branch, including the refused one that restores the interrupt enables |
| `PowerSave.RfPowerSave.WakeUp` | components/power_save/power_save.c:316-354 | the six interrupts on, the wake-up off and the lock taken, as the wake-up step of the run theorems does; the assertion's failure is recorded |
| `PowerSave.RfPowerSave.IeeeDtimWakeup` | components/power_save/power_save.c:364-403 | wakes exactly for a reason from RW to USER while asleep and otherwise changes nothing, as the run theorems assume |
| `PowerSave.RfPowerSave.DtimWake` | components/power_save/power_save.c:86-107 | the MAC's wake-up takes effect exactly in DTIM mode with no earlier reason and with its status bit, as `PowerSave.WhatWakes` and the run theorems assume |
| `PowerSave.RfPowerSave.ManualDoWakeup` | components/power_save/power_save.c:736-785 | the user's wake-up takes effect exactly in DTIM mode while asleep with no other reason, as the run theorems assume |
| `PowerSave.RfPowerSave.EnableHandler` | components/power_save/power_save.c:605-639 | power save is enabled exactly when the station is connected |
| `PowerSave.RfPowerSave.DisableHandler` | components/power_save/power_save.c:672-706 | leaves DTIM mode and clears the sleep flag but not the lock, which is why a disable asleep breaks the pairing |
| `List.RingInverse` | include/doubly_list.h:41-47 | on a ring next and prev undo each other at every node |
| `List.Link` | include/doubly_list.h:41-47 | inserting between consecutive nodes keeps one ring |
| `List.AddHead` | include/doubly_list.h:57-60 | the entry becomes the first |
| `List.AddTail` | include/doubly_list.h:70-73 | the entry becomes the last |
| `List.Unlink` | include/doubly_list.h:82-86 | joining the neighbours removes exactly this node from the ring |
| `List.Del` | include/doubly_list.h:94-97 | the ring loses the entry, whose own links stay |
| `List.DelInit` | include/doubly_list.h:103-107 | and the entry is an empty list of its own |
| `List.Move` | include/doubly_list.h:114-118 | from its ring to the front of another ring or of the same one; both stay rings |
| `List.MoveTail` | include/doubly_list.h:125-130 | the same to the end |
| `List.IsEmpty` | include/doubly_list.h:136-139 | true exactly for a head alone |
| `List.Splice` | include/doubly_list.h:160-164 | the entries of one list stand right behind the head of the other, in order |
| `List.SpliceInit` | include/doubly_list.h:173-180 | and the source is an empty list |
| `List.Size` | include/doubly_list.h:243-251 | terminates with the number of entries |
| `Peers.HistoryIsMap` | components/bk_aware/bk_aware.c:531-677 | after any history of add, delete and modify the addresses are distinct and the table equals the map the history describes |
| `Peers.RunAll` | components/bk_aware/bk_aware.c:531-677 | any history on a fresh table object answers by the map of what came before, every lookup afterwards yields what that map holds, and the count as result is its size, which is success only for an empty table |
| `Peers.AnswersByMap` | components/bk_aware/bk_aware.c:531-639 | in every history an add answers OK exactly for an address the map does not hold and a delete for one it holds, a modify always |
| `Peers.CountIsMap` | components/bk_aware/bk_aware.c:742-760 | the table holds as many peers as the map |
| `Peers.Table.AddPeer` | components/bk_aware/bk_aware.c:531-559 | appends a new address, refuses a known one, and changes nothing without memory |
| `Peers.Table.DelPeer` | components/bk_aware/bk_aware.c:572-604 | removes exactly the peer with this address and frees its node |
| `Peers.Table.ModPeer` | components/bk_aware/bk_aware.c:617-639 | overwrites the peer with this address, and answers OK even when there is none |
| `Peers.Table.GetPeer` | components/bk_aware/bk_aware.c:653-677 | returns what the map holds for the address |
| `Peers.Table.IsExist` | components/bk_aware/bk_aware.c:714-730 | whether the map holds the address |
| `Peers.Table.PeerNum` | components/bk_aware/bk_aware.c:742-760 | NOT_INIT, or the number of peers both in the structure and as the result code |
| `Peers.Table.Deinit` | components/bk_aware/bk_aware.c:252-270 | frees every node exactly once, in list order, and leaves the list empty |
| `Kfifo.RunAll` | include/fifo.h:100-196 | every sequence of put, get and peek on a fresh fifo of size zero or a power of two answers as a plain bounded queue, the counts of the puts included, across any number of counter wraps; bytes got followed by bytes left are the bytes reported stored |
| `Kfifo.Fifo.constructor` | include/fifo.h:30-48 | the power-of-two test admits zero and the powers of two; the fifo is empty |
| `Kfifo.Fifo.Put` | include/fifo.h:100-120 | appends what fits and returns how much that was |
| `Kfifo.Fifo.Get` | include/fifo.h:134-154 | removes and returns the front |
| `Kfifo.Fifo.Peek` | include/fifo.h:184-196 | returns what the next get would |
| `Kfifo.Fifo.DataSize` | include/fifo.h:156-159 | the 32-bit difference of the counters is the queue length |
| `Kfifo.Fifo.Unused` | include/fifo.h:161-164 | the room left |
| `Kfifo.MaskedCounter` | include/fifo.h:110-111 | a wrapped 32-bit counter masked with size - 1 is the running total's place in the buffer |
| `Clock.SystemClock.CatchUp` | components/misc/fake_clock.c:120-141 | a catch-up by n leaves clock, seconds and countdown as n single ticks would |
| `Clock.SecondsFromStart` | components/misc/fake_clock.c:76-97 | from the start the seconds are the tick total divided by 500 and the countdown is the rest of the second |
| `Clock.DebtRepaid` | components/power_save/mcu_ps.c:451-478 | a debt of D milliseconds suppresses exactly D / 2 ticks and is repaid within 5 calls for every two milliseconds begun, at any counter value including its wrap |
| `Clock.DebtFalls` | components/power_save/mcu_ps.c:419-448 | debt and suppressed ticks after any number of calls |
| `Clock.LossesPayDebt` | components/power_save/mcu_ps.c:419-448 | any positive losses pay a debt off as far as they go, and what is left of them is what exceeds it |
| `Clock.SystemClock.RepayDebt` | components/misc/fake_clock.c:76-97 | enough interrupts after a debt leave the clock exactly D / 2 ticks behind the interrupts |
| `Clock.SystemClock.Hdl` | components/misc/fake_clock.c:76-97 | an interrupt counts one tick unless the debt suppresses it |
| `Clock.SystemClock.UpdateTick` | components/misc/fake_clock.c:144-160 | a catch-up that is not zero also cancels the debt |
| `Clock.SystemClock.NeedPstick` | components/power_save/mcu_ps.c:451-478 | every fifth call settles part of the debt |
| `Clock.SystemClock.CalIncreaseTick` | components/power_save/mcu_ps.c:419-448 | the lost time pays the debt, nothing is lost and not both remain |
| `Channels.SelectionSorts` | components/airkiss/airkiss_main.c:162-197 | inserting channels in scan order yields the stable descending sort by data count of those that passed |
| `Channels.SelectedIff` | components/airkiss/airkiss_main.c:162-170 | a channel is selected exactly with at least four data packets and a beacon, with the count it had |
| `Channels.AddedOnce` | components/airkiss/airkiss_main.c:171-197 | a channel that stands at its place with a lower count is updated there, any other is inserted |
| `Channels.SortedUnique` | components/airkiss/airkiss_main.c:171-188 | that order and those members determine the selection |
| `Channels.Scanner.Switch` | components/airkiss/airkiss_main.c:199-260 | no channel still to be scanned is lost or changed; at the change to selected scanning the front of the array is that sort over one result for each of 13 channels; selected scanning changes nothing until it ends with channels 1 to 13 restored |
| `Channels.Scanner.AddChannel` | components/airkiss/airkiss_main.c:162-197 | the selected part gains the channel at its place, only the entry behind it is overwritten |
| `Channels.Scanner.Restart` | components/airkiss/airkiss_main.c:130-146 | a full scan starts with channels 1 to 13 and cleared counters |
| `Channels.Scanner.Count` | components/airkiss/airkiss_main.c:74-128 | a frame increments one 8-bit counter of the current channel |
| `Button.FlipsAfterSix` | components/key/multi_button.c:68-77 | the debounced level changes exactly with the sixth differing sample in a row under an unchanged level |
| `Button.DownUpAlternate` | components/key/multi_button.c:79-155 | in every trace each PRESS_UP has its own PRESS_DOWN before it and between two PRESS_DOWN there is a PRESS_UP |
| `Button.HoldOnlyWhenLong` | components/key/multi_button.c:142-153 | LONG_PRESS_HOLD comes only after a LONG_PRESS_START with no PRESS_UP since |
| `Button.PressesIff` | components/key/multi_button.c:79-155 | PRESS_DOWN exactly at the samples where the debounced level turns active, PRESS_UP exactly where it turns inactive, each first; nothing is called twice at a sample |
| `Button.RepeatIff` | components/key/multi_button.c:107-117 | PRESS_REPEAT exactly at every press of a burst after the first |
| `Button.HoldIff` | components/key/multi_button.c:142-153 | LONG_PRESS_HOLD at every sample from LONG_PRESS_START until the release and at no other |
| `Button.EventIff` | components/key/multi_button.c:49-155 | what button_get_event answers after a sample, by the level and the burst: DOUBLE_CLICK not at the second press but at the end of a burst of two or eighteen |
| `Button.BurstFits` | components/key/multi_button.c:79-155 | after any samples the automaton's state, press counter and ticks are those of the burst that the debounced level alone describes |
| `Button.SingleClickIff` | components/key/multi_button.c:118-126 | SINGLE_CLICK exactly when the debounced level stays inactive for the 81st sample after a number of presses congruent to 1 modulo 16 |
| `Button.DoubleClickIff` | components/key/multi_button.c:107-117 | DOUBLE_CLICK exactly where the debounced level turns active for a press whose number in the burst is congruent to 2 modulo 16 |
| `Button.LongStartIff` | components/key/multi_button.c:100-104 | LONG_PRESS_START exactly when the level is still active at the 201st sample after the first press of a burst |
| `Button.Handle.Handler` | components/key/multi_button.c:61-155 | one sample's effect on all fields and its callbacks in order, equal to the step that the trace theorems fold over |
| `Button.Feed` | components/key/multi_button.c:61-155 | the handler called with any samples makes exactly the callbacks of the trace |
| `Flash.EraseRange` | components/user_driver/BkDriverFlash.c:131-156 | for any partition, offset and size exactly the sectors from that of the offset to that of the last byte are erased, with the last offset in unsigned 32 bits |

## Left out

- Role launcher: stopping and uninitialising it, the fast-connect code, and failing allocations in the enter callback; a cached station request is an ordinary station request, and one thread at a time pauses.
- Role launcher, TFTP transfer and ping-pong buffer are step systems on values because several contexts share their state; in-place update of the launcher's and the ping-pong buffer's global records is not modelled as a class.
- Tftp.StoredInOrder: assumes FIFO channels and a server that follows RFC 1350 and answers the block size option with at most the size asked for, as RFC 2348 demands. Channels that reorder are outside it. Until the receiver has chosen a server, third parties send only packets it ignores: the original would take an option acknowledgement or a first block from anyone.
- Tftp.DataAreaIsPrefix: assumes block headers that number the blocks, blocks with room for a header, and an image that fits the window and a flash that covers it. After an overrun nothing is claimed.
- TFTP packets are modelled by kind and content; the text of options, `TftpBlockWrap` bookkeeping, which only feeds log output, and the read-back of written blocks, which only logs, are not.
- Images outside the address window: `store_block` skips their blocks but erases before it looks; the model does so too, the data area theorems assume an image that fits.
- NetParam.Store.SearchItem: a table that no sequence of saves produces is outside the precondition; when the original then searches forever is `NetParam.SearchLoopsIff`.
- NetParam.Store.Save: the charge item has three bytes and a reserved one, as on every chip but the BK7221U.
- Ftp.Sfifo.constructor: requests of 2^30 bytes or more, for which the original does not return; allocation failure.
- FTP commands other than RETR, and a file read that fails after moving the file position.
- Chunked HTTP transfer, which restarts the flash session for each chunk, and the build in which over-the-air data goes through `store_block`.
- RF power save with Bluetooth, the keep and wait timers and the reboot branch of the disable handler.
- Peers.Table.AddPeer: a call, or one of `Peers.Table.IsExist`, after deinit follows a null list head in the original; the model keeps an empty list instead.
- `fclk_reset_count`, which leaves the countdown alone, and new tick calibrations while a debt is being repaid.
- The MAC table of `airkiss_count_usefull_packet` and the timer lengths of selected scanning.
- Button registration: the singly linked list behind `button_start`, `button_stop` and `button_ticks`.
- Message plumbing, sockets, threads, drivers, camera, audio, lwIP, FatFs and the CRC itself.
