# Nomad: a model of the server's stateful core and the wallet's key codec

The Nomad server answers a wallet's requests over Nostr relays, watches the wallet's addresses and
sends it notifications; the wallet derives those addresses from extended public keys. This project
models the parts with the most state, arithmetic and concurrency, and proves what they guarantee over
every input and every run.

`dafny verify dfyconfig.toml` checks everything.

## What is modelled

- **Base58Check** (`Radix`, `Base58`, `Deriver`). The big-integer reader and printer with the sign byte
  of `BigInteger.toByteArray` and leading zeros; the version swap; the choice of script by key prefix.
  SHA-256 is any function to 32 bytes. A string decodes to a payload if and only if it is that payload's
  encoding, and a 78-byte key converted to the xpub or tpub version always prints as 111 characters
  starting "xpub" or "tpub".
- **The request pipeline** (`Replay`, `RateLimit`, `Pairing`, `Protocol`, `Store`, `Journal`, `Handlers`,
  `Transport`). Each store is a class with its fields, and each has an exact specification in terms of
  history: the replay cache, the token bucket and the pairing secret answer yes if and only if a
  condition on past events holds. `ServerRuns`, `DispatchRuns` and `PairingRuns` join them into runs of
  the whole server: requests, LAN revocations, QR displays and restarts in any order, restarts also
  between the two file writes of an unpair request.
- **End to end** (`Client`, `EndToEnd`). The wallet's retry loop and the server, over relays that drop,
  duplicate, reorder and delay.
- **History** (`History`, `Handlers`). Merge, sort, truncate and anchor lookup give one canonical answer,
  whatever the order in which maps are walked.
- **The watcher** (`WatcherRuns`, `Watcher`, `Notices`). A step machine with failed queries, failed
  sends, failed writes and crashes; the code of a tick is shown to be a run of it. Then: what the log of
  notifications contains, which crashes are safe, what an unsafe one repeats, and what a receiver can
  reconstruct.
- **The Electrs gate** (`Electrs`). Any number of concurrent callers as a step machine under a clock that
  only moves forward: what spacing and cooldown guarantee, and, where they do not hold as announced, the
  exact condition under which they do.

The recursive specification functions read runs from the end: the state after `es` is one step after the
state of `es` without its last event.

## Hypotheses

They appear as `requires` clauses, or as parameters.

- Clocks do not run backwards where a lemma says so (`NonDecreasing`, `Ordered`, `ClockForward`,
  `OneClock`). A pair request may carry an earlier time than a QR display before it, because its clock is
  read when it arrives.
- A file is written and renamed, or left as it was; a flag on each write tells which. The results about
  the replay cache and the watcher, whose writes are best effort, suppose nothing and say exactly what a
  failed write costs; so do `ServerRuns.AllowlistIsHistory`, `WatchSetIsHistory` and `OrphanIff`. The
  simpler forms `AllowlistIsLatest`, `WatchSetIsLatest` and `OrphansExplained` suppose that each restart
  finds the two files current, for which it is enough that the latest write to each succeeded
  (`ServerRuns.SavedRestartsAreCurrent`).
- At the Electrs gate any waiting caller may get the permit next and any caller may be dropped at any
  time. What holds of all these schedules holds of the real ones, where tokio's semaphore serves callers
  in order and the transport's and the watcher's calls are not dropped. The "if" half of
  `Electrs.CooldownDispatchIff` uses this freedom: with an undroppable caller ahead of it in the queue, a
  call is ready later than the lemma says.
- The backend returns one history per script, in order (server/src/electrs.rs:130-139).
- Messages are authentic: the sender of a request, and of a response, is who it says. A wallet sends only
  requests of the current version with UUID ids (`EndToEnd.Honest`).
- A request that was let through arrives again only within ten days of that, the wraps expiring after
  nine (server/src/transport.rs:26-29), and not after a restart that lost it (`EndToEnd.Timely`).
- SHA-256, HMAC, hexadecimal decoding, UUID syntax, address validity and BDK are parameters.

## Where the code and its documentation differ

The model follows the code.

- server/src/electrs.rs:3-8 announces 100 ms between calls, one RPC in flight and fast failure in
  cooldown. The stamp precedes the sleep, so only dispatches two apart are spaced
  (`Electrs.DispatchesAreSpaced`), and a dispatch is spaced from the next one exactly when its call did not
  sleep, or nobody is past the check and the cooldown outlasts the spacing (`Electrs.AdjacentSpacingIff`).
  A timed-out or dropped call leaves its task running: a task runs exactly if it is awaited or was left
  behind (`Electrs.TasksAreAccounted`). The cooldown is read only before queuing: a call may dispatch in it
  exactly if it is past the check and can be ready in time (`Electrs.CooldownDispatchIff`). Three runs
  show each case.
- server/src/transport.rs:7-8 and docs/THREAT_MODEL.md:92 put authorization right after unwrapping. The
  code checks for replays and limits the rate first, so strangers do have buckets, against
  server/src/ratelimit.rs:2-3.
- docs/PROTOCOL.md:131-136 calls a message repeated past the cache window harmless.
  `Transport.DispatchIsHarmless` states exactly when a repeated dispatch changes nothing, and
  `ServerRuns.ExpiredUnpairActsAgain` is a case in which it does change something, with a whole run in
  `ServerRuns.ExpiredUnpair`. Repeating a dispatch with nothing in between is always harmless to the
  allowlist and the watch sets (`Transport.DispatchIsIdempotent`), though the failed-attempt counter may
  advance.
- docs/PROTOCOL.md:201 says each load of the pairing page makes a fresh secret; the code shows a live one
  again (`Pairing.ShowIsExact`). docs/PROTOCOL.md:221-223 puts the allowlist check last; the code makes it
  first, and it costs no attempt.
- server/src/handlers.rs:225-226 says "newest first"; unconfirmed transactions, with height 0, come last
  (`Handlers.AnswerIsRanked`).
- server/src/watcher.rs:12-14 calls the first observation silent. That is so per wallet, not per address
  (`Watcher.NotifiedIff`). And a restart notifies nothing again if nothing was sent for a snapshot that the
  file does not cover (`WatcherRuns.LogIsSubsequence`); otherwise it can (`WatcherRuns.UnsafeCrashRepeats`).
- server/src/replay.rs:50-51 says a failed write costs restart protection only. It does:
  `Replay.MemoryNeedsNoWrites`, and `Replay.RestartForgets` for what a restart then forgets.
- A LAN revocation leaves the watch set in place (server/src/http.rs:127-137), where `unpair` clears it. A
  restart between the two writes of an unpair request (server/src/transport.rs:205-207) leaves it too
  (`ServerRuns.OrphansExplained`, `ServerRuns.UnpairClearsUnlessRestarted`, `ServerRuns.InterruptedUnpair`).
- A request whose first response was lost is not answered again (server/src/transport.rs:140-143): the end
  to end result is about safety only.
- A request with a wrong version or a bad id is answered before the replay check, hence each time it
  arrives (server/src/transport.rs:123-127).

## Model

| member | source | states |
|---|---|---|
| `Base58.AlphabetSpelled` | wallet/android/app/src/main/java/io/nomadserver/wallet/watch/Deriver.kt:76 | The alphabet is the source's 58 characters in that order. |
| `Base58.SignByte` | wallet/android/app/src/main/java/io/nomadserver/wallet/watch/Deriver.kt:83-84 | Dropping one leading zero byte of `toByteArray` leaves exactly the base-256 digits; that byte is there only for zero or to keep the sign bit clear. |
| `Base58.Base58CheckDecode` | wallet/android/app/src/main/java/io/nomadserver/wallet/watch/Deriver.kt:75-92 | The digit loop, the sign-byte fix, the leading '1's and the checksum compute `Decoded`, with its three errors. |
| `Base58.Base58CheckEncode` | wallet/android/app/src/main/java/io/nomadserver/wallet/watch/Deriver.kt:94-109 | The division loop, the '1's and the reversal compute `Encoded`. |
| `Base58.EncodedBytes` | wallet/android/app/src/main/java/io/nomadserver/wallet/watch/Deriver.kt:94-109 | The encoding of a payload is in the alphabet, and the bytes it stands for are the payload followed by the first four bytes of sha(sha(payload)). |
| `Base58.DecodesIffBytes` | wallet/android/app/src/main/java/io/nomadserver/wallet/watch/Deriver.kt:75-92 | A string decodes to a payload if and only if it is in the alphabet and stands for the payload followed by the first four bytes of its double hash; each error has its own exact condition. |
| `Base58.RawIsSameNumber` | wallet/android/app/src/main/java/io/nomadserver/wallet/watch/Deriver.kt:75-87 | The bytes a string stands for have as many leading zeros as it has leading '1's, and make in base 256 the number that the positions of its characters in the alphabet make in base 58. |
| `Base58.EncodeThenDecode` | wallet/android/app/src/main/java/io/nomadserver/wallet/watch/Deriver.kt:75-109 | Every byte string, all zeros and leading zeros included, is recovered from its encoding. |
| `Base58.DecodeThenEncode` | wallet/android/app/src/main/java/io/nomadserver/wallet/watch/Deriver.kt:75-109 | Every accepted string is the encoding of what it decodes to. |
| `Base58.DecodesIffEncodes` | wallet/android/app/src/main/java/io/nomadserver/wallet/watch/Deriver.kt:75-109 | A string decodes to a payload if and only if it is that payload's encoding. |
| `Deriver.ConvertVersion` | wallet/android/app/src/main/java/io/nomadserver/wallet/watch/Deriver.kt:68-73 | Decodes, swaps, encodes; a payload under four bytes is a range error. |
| `Deriver.ConvertReplacesVersion` | wallet/android/app/src/main/java/io/nomadserver/wallet/watch/Deriver.kt:68-73 | Decoding the converted string gives the new version followed by the old payload from its fifth byte on. |
| `Deriver.LastConversionWins` | wallet/android/app/src/main/java/io/nomadserver/wallet/watch/Deriver.kt:68-73 | Of successive conversions only the last one shows, errors included. |
| `Deriver.ConvertBack` | wallet/android/app/src/main/java/io/nomadserver/wallet/watch/Deriver.kt:68-73 | Converting back to the original version restores the original string. |
| `Deriver.ConvertedShape` | wallet/android/app/src/main/java/io/nomadserver/wallet/watch/Deriver.kt:29-45 | Any 78-byte key converted to the xpub (tpub) version has 111 characters, starts "xpub" ("tpub") and passes `isExtendedPubkey`. |
| `Deriver.DeriveAddresses` | wallet/android/app/src/main/java/io/nomadserver/wallet/watch/Deriver.kt:37-65 | The prefix picks the conversion and the wrapper; a bad prefix, a bad key, a rejected descriptor and a failed derivation are the errors. |
| `Deriver.DerivesExactly` | wallet/android/app/src/main/java/io/nomadserver/wallet/watch/Deriver.kt:37-65 | Deriving succeeds with a if and only if a has thirty entries: those below 20 are what BDK gives at that index for the descriptor `wpkh(key/0/*)`, the other ten what it gives for `wpkh(key/1/*)`, both inside `sh()` exactly for ypub and upub, where key is the trimmed input, or for the four other prefixes its conversion. |
| `Deriver.DerivesOrFails` | wallet/android/app/src/main/java/io/nomadserver/wallet/watch/Deriver.kt:50-64 | Which failure comes first: the receive descriptor, one of its twenty addresses, the change descriptor, one of its ten. |
| `Deriver.NoPrefixFails` | wallet/android/app/src/main/java/io/nomadserver/wallet/watch/Deriver.kt:37-39 | An input with none of the six prefixes is not an extended public key. |
| `Deriver.ConversionFails` | wallet/android/app/src/main/java/io/nomadserver/wallet/watch/Deriver.kt:40-44 | An input to convert that does not decode fails as its decoding does; one of fewer than four bytes is a range error. |
| `Deriver.TrimIs` | wallet/android/app/src/main/java/io/nomadserver/wallet/watch/Deriver.kt:47 | Trimming takes off whitespace only, at both ends, and all of it. |
| `Deriver.ListAddresses` | wallet/android/app/src/main/java/io/nomadserver/wallet/watch/Deriver.kt:51-64 | Twenty receive addresses, then ten change addresses; the first failure, in the order of the loop, ends it. |
| `Deriver.ListChain` | wallet/android/app/src/main/java/io/nomadserver/wallet/watch/Deriver.kt:53-62 | A chain's addresses by index; the descriptor is made first, and the first address that cannot be derived ends it. |
| `Deriver.DeriveThroughConversion` | wallet/android/app/src/main/java/io/nomadserver/wallet/watch/Deriver.kt:38-47 | A key that needs conversion yields the addresses of its converted form, which itself takes the branch without conversion. |
| `RateLimit.RateLimiter.Allow` | server/src/ratelimit.rs:29-45 | Refills, clamps and spends one token of the sender's bucket and touches no other. |
| `RateLimit.LevelIsLeastAllowance` | server/src/ratelimit.rs:35-37 | The tokens at hand are ten or the least, over all earlier requests, of ten plus the seconds since, less the requests accepted since. |
| `RateLimit.BucketIsExact` | server/src/ratelimit.rs:29-45 | A request is allowed if and only if accepting it keeps every stretch that ends with it within ten plus its seconds. |
| `RateLimit.WindowBound` | server/src/ratelimit.rs:29-45 | Any window of w seconds admits at most 10 + w requests. |
| `RateLimit.BucketsAreIndependent` | server/src/ratelimit.rs:31-34 | A sender's bucket depends on that sender's requests alone. |
| `Replay.ReplayCache.Load` | server/src/replay.rs:27-41 | Memory starts as the file, a missing one as empty; one that cannot be read or parsed is an error. |
| `Replay.ReplayCache.CheckAndInsert` | server/src/replay.rs:43-60 | New exactly when the id is not held or was inserted ten days ago or more; drops the entries that old, inserts a new id and rewrites the file, where the write may fail. |
| `Replay.CacheIsHistory` | server/src/replay.rs:27-60 | Whichever writes fail: memory holds exactly the ids accepted within the retention period that no restart lost, the file those that a restart now would not lose. |
| `Replay.CheckIsExact` | server/src/replay.rs:43-60 | An id is new if and only if no acceptance within the retention period is remembered; one is forgotten at a restart that no accepting check with a successful write preceded. |
| `Replay.MemoryNeedsNoWrites` | server/src/replay.rs:50-57 | Without a restart an id is new if and only if it was not accepted within the retention period, even if every write fails. |
| `Replay.RestartForgets` | server/src/replay.rs:27-57 | A restart makes an id new if and only if it was accepted recently, is still remembered, and no accepting check since wrote the file; it never makes one known. |
| `Replay.RestartsAreInvisible` | server/src/replay.rs:27-60 | A run and the same run without its restarts give the same answers if and only if at every check all recent acceptances of its id are remembered. |
| `Replay.LostWriteForgets` | server/src/replay.rs:50-57 | After a failed write and a restart the same id is accepted twice. |
| `Pairing.PairingManager.PayloadAt` | server/src/pairing.rs:52-81 | Shows the live secret again or puts the given random one in place for 600 seconds; the payload carries the secret and its expiry. |
| `Pairing.PairingManager.VerifyAt` | server/src/pairing.rs:87-112 | Accepts a matching proof of a live secret and burns it; counts a mismatch and drops the secret at the fifth. |
| `Pairing.StateReflectsHistory` | server/src/pairing.rs:52-112 | The state in memory is determined by the events alone: which secret, when it expires, whether it was used, how many mismatches. The notions on the history side look at no state. |
| `Pairing.VerifyIsExact` | server/src/pairing.rs:87-112 | A verification succeeds if and only if the latest secret is unexpired, has had no success and fewer than five mismatches, and the proof matches it. |
| `Pairing.ShowIsExact` | server/src/pairing.rs:58-71 | A new secret is generated if and only if the latest one is no longer live in that sense. |
| `Pairing.OneSuccessPerSecret` | server/src/pairing.rs:83-86 | Between two successes a new secret was generated. |
| `Pairing.SuccessesBounded` | server/src/pairing.rs:52-112 | Successes never exceed generated secrets, and an unspent secret leaves one to spare. |
| `Protocol.ParseRequest` | server/src/protocol.rs:101-124 | Unreadable or oversized content is dropped; a readable request passes if and only if it has version 1 and a UUID id of at most 64 characters; another version is answered under its own id, a bad id under the nil id. |
| `Store.Allowlist.Load` | server/src/store.rs:36-47 | Memory starts as the file, a missing one as empty; one that cannot be read or parsed is an error. |
| `Store.Allowlist.Add` | server/src/store.rs:53-57 | Adds in memory, then on disk; the write may fail. |
| `Store.Allowlist.Remove` | server/src/store.rs:59-66 | Removes and writes only if the key was there. |
| `Store.WatchStore.Load` | server/src/store.rs:83-94 | Memory starts as the file, a missing one as empty; one that cannot be read or parsed is an error. |
| `Store.WatchStore.Replace` | server/src/store.rs:97-107 | Replaces the whole set; an empty list clears it; the file is written either way. |
| `Store.WatchStore.RemoveWallet` | server/src/store.rs:109-115 | Removes and writes only if the wallet had a set. |
| `Journal.PlayedIsHistory` | server/src/store.rs:17-27 | Of a store written as a whole, memory and file hold for each key what the latest change left that no restart undid, for any failing writes. |
| `History.MergeHistories` | server/src/handlers.rs:227-235 | The nested loops over all histories compute `Merged`. |
| `History.MergeIsMax` | server/src/handlers.rs:227-235 | The map holds exactly the transactions that occur, each at its greatest clamped height. |
| `History.MergeIgnoresOrder` | server/src/handlers.rs:227-235 | Histories with the same entries, in any order, merge alike. |
| `History.Collect` | server/src/handlers.rs:236 | The items of the map, each once, in no particular order. |
| `History.SortTxs` | server/src/handlers.rs:237 | Sorted by height descending, then by id, with the same elements. |
| `History.SortedIsRanking` | server/src/handlers.rs:236-237 | Whatever order the map is walked in, the sorted list is the same. |
| `Handlers.ValidateAddresses` | server/src/handlers.rs:33-62 | The listed addresses in order, if and only if there is a list, it is not too long and every item is a valid address. |
| `Handlers.ValidatedIs` | server/src/handlers.rs:33-62 | A list passes if and only if it is present, within the limit and every item is a text that is a valid address; the result is that list, item by item. |
| `Handlers.Anchors` | server/src/electrs.rs:153-165 | Succeeds if and only if every height's header can be had, and then holds exactly those. |
| `Handlers.TopTransactions` | server/src/handlers.rs:225-238 | Merge, sort and truncate give the first entries of the ranking. |
| `Handlers.WithAnchors` | server/src/handlers.rs:247-262 | Every positive height finds its anchor; each transaction carries its own block. |
| `Handlers.GetHistory` | server/src/handlers.rs:197-264 | The whole query, with its error cases in the source's order. An answer has as many entries as there are distinct transactions, up to k: 50 without a limit, 1 for limit 0, l for l from 1 to 200, 200 above; it is `HistoryAnswer` for that k. |
| `Handlers.AnswerLength` | server/src/handlers.rs:236-238 | An answer with limit n has the lesser of n and the number of distinct transactions in the histories. |
| `Handlers.AnswerFailsIff` | server/src/handlers.rs:240-246 | It fails if and only if a confirmed transaction within the limit has a block whose header cannot be had. |
| `Handlers.AnswerIgnoresOrder` | server/src/handlers.rs:220-263 | The answer depends only on which entries occur in the histories. |
| `Handlers.AddressOrderIsInvisible` | server/src/handlers.rs:219-263 | Asking for the same addresses in another order, or repeating some, gives the same answer. |
| `Handlers.SmallerLimitIsPrefix` | server/src/handlers.rs:212-238 | A smaller limit gives a prefix of what a larger one gives. |
| `Handlers.AnswerIsRanked` | server/src/handlers.rs:236-263 | Height descending, then id ascending, the unconfirmed last by id, no transaction twice. |
| `Handlers.AnswerIsAccurate` | server/src/handlers.rs:227-262 | Each transaction has the greatest height that any history gives it, negative ones counting as 0; a confirmed one has a positive height and the block found at it. |
| `Handlers.OmittedRankLower` | server/src/handlers.rs:237-238 | A transaction is left out only if the limit is reached, and it ranks after all that are in. |
| `Transport.Transport.Route` | server/src/transport.rs:138-152 | Replay check, rate limit, dispatch: the whole new state and the response, or none for a duplicate. |
| `Transport.Transport.Dispatch` | server/src/transport.rs:154-167 | `pair` for everyone, the rest for allowlisted senders; unknown types last. |
| `Transport.StrangerIsRefused` | server/src/transport.rs:156-161 | A sender not allowlisted that does not ask to pair gets `not_paired`, and nothing changes. |
| `Transport.QueryAnswer` | server/src/transport.rs:162-166 | An allowlisted sender's chain query is answered with exactly what the backend handler gives, an unknown type with `unknown_type`; nothing changes. |
| `Transport.RouteAnswer` | server/src/transport.rs:138-152 | An id seen less than ten days ago gets no answer, a sender whose refilled bucket is empty `rate_limited`, and neither reaches allowlist, watch sets or secret; any other request gets what dispatching it gives, under its own id. |
| `Transport.Transport.HandlePair` | server/src/transport.rs:169-202 | A paired sender fails without an attempt; else the proof decides, then the allowlist write. |
| `Transport.PairAnswer` | server/src/transport.rs:169-202 | Every case of a pair request, with answer and whole new state: already paired, proof right, proof wrong, no live secret, failed write. |
| `Transport.Transport.HandleUnpair` | server/src/transport.rs:204-219 | Removes the sender and, if that was written, its watch set. |
| `Transport.UnpairAnswer` | server/src/transport.rs:204-219 | A paired sender leaves the allowlist; if that was written it loses its watch set and is told so, else it gets `internal`; nobody else is touched. |
| `Transport.Transport.HandleWatch` | server/src/handlers.rs:364-383 | A valid list replaces the sender's watch set; an invalid one changes nothing. |
| `Transport.WatchAnswer` | server/src/handlers.rs:364-383 | A list of at most 5000 valid addresses becomes the sender's watch set, in order, or clears it if empty, and is answered with its length; any other list is `invalid_request`; nobody else's set changes. |
| `Transport.DispatchIsIdempotent` | server/src/transport.rs:154-219 | Dispatching an envelope twice in a row, in any state, leaves the allowlist and all watch sets as once. |
| `Transport.DispatchIsHarmless` | server/src/transport.rs:154-219 | Dispatching an envelope changes neither allowlist nor watch sets if and only if the handlers' guards leave it nothing to do. |
| `Transport.AttemptsMayAdvance` | server/src/transport.rs:179-187 | The failed-attempt counter may advance the second time. |
| `ServerRuns.ReceiveThenProceedIsRoute` | server/src/transport.rs:138-152 | A request received and handled with nothing in between has the effect and the response of `route`. |
| `ServerRuns.ArrivalAnswer` | server/src/transport.rs:123-161 | On arrival a request is answered only to refuse it: version, request, rate or pairing. |
| `ServerRuns.HandlerAnswer` | server/src/transport.rs:154-167 | Over all runs a handler's answer goes to the sender of an earlier request with that id: one of three answers if that asked to pair, and otherwise the sender was allowlisted when it arrived. |
| `ServerRuns.StrangersLearnNothing` | server/src/transport.rs:138-167 | Over all runs any answer other than a refusal or an answer to a pair request goes to a sender that was allowlisted when its request with that id arrived. |
| `ServerRuns.StrangerIsRefusedAtOnce` | server/src/transport.rs:138-161 | A fresh request of a sender not allowlisted, with a token left, gets `not_paired` on arrival and leaves nothing to do, unless it asks to pair. |
| `ServerRuns.ExpiredUnpairActsAgain` | server/src/replay.rs:43-60 | After the retention period a repeated unpair request removes a wallet that paired again. |
| `ServerRuns.ExpiredUnpair` | server/src/replay.rs:43-60 | A run from the empty server in which it does: pair, unpair, ten days, pair with a new secret, and the old unpair request arrives again. |
| `ServerRuns.AllowlistIsHistory` | server/src/transport.rs:169-219 | Over all runs, whichever writes fail: a key is allowlisted if and only if its latest change was a pairing, leaving out the changes that a restart undid before the file was written again; the file likewise. |
| `ServerRuns.AllowlistIsLatest` | server/src/transport.rs:169-219 | If restarts find the files current: a key is allowlisted if and only if its latest pairing follows its latest removal; an unpair request removes at its first half. |
| `ServerRuns.SavedRestartsAreCurrent` | server/src/store.rs:53-66 | Restarts find the allowlist and the watch sets as they were if the latest write to each file before them succeeded. |
| `ServerRuns.OrphanIff` | server/src/transport.rs:204-219 | Over all runs, whichever writes fail: from history alone, exactly when a key owns a watch set and is not allowlisted. |
| `ServerRuns.OrphansExplained` | server/src/transport.rs:204-219 | If restarts find the files current, such a key was last removed on the LAN page, or by an unpair request whose first write failed, that is half done, or that a restart cut short between its two writes. |
| `ServerRuns.UnpairClearsUnlessRestarted` | server/src/transport.rs:205-209 | A written unpair request leaves the watch set behind if and only if the server restarts before its second write. |
| `ServerRuns.InterruptedUnpair` | server/src/transport.rs:205-209 | A run without failed writes and revocations that ends with such a key: pair, watch, unpair, restart in between. |
| `ServerRuns.WatchSetIsHistory` | server/src/handlers.rs:364-383 | Over all runs, whichever writes fail: a key's watch set, in memory and on disk, is what its latest accepted watch request or ended unpair request left, leaving out the changes that restarts undid. |
| `ServerRuns.WatchSetIsLatest` | server/src/handlers.rs:364-383 | If restarts find the files current: a key's watch set is the list of its latest accepted watch request, unless it was empty or the key unpaired since, to the second write. |
| `ServerRuns.StoredAddressesAreValid` | server/src/handlers.rs:53-59 | Over all runs every address in any watch set, in memory or on disk, is valid. |
| `ServerRuns.PairingsUseDistinctSecrets` | server/src/transport.rs:169-202 | Between two successful pairings a display of the QR generated a new secret. |
| `PairingRuns.PairingIsProjected` | server/src/transport.rs:169-187 | In every run the pairing state is that of the displays and pair requests alone. |
| `PairingRuns.PairingIsOrdered` | server/src/transport.rs:138-183 | With one clock for arrivals and displays, verifications reach the manager in an order its specification covers. |
| `PairingRuns.PairingIsExact` | server/src/transport.rs:169-202 | A pair request succeeds if and only if its sender is not paired and the secret displayed last is live and matches the proof. |
| `DispatchRuns.AcceptanceIsExact` | server/src/transport.rs:138-143 | A well-formed request is accepted if and only if its id was not accepted within ten days, not counting what a restart lost. |
| `DispatchRuns.AcceptedAtMostOnce` | server/src/transport.rs:138-143 | An id accepted less than ten days ago and not lost by a restart is not accepted again. |
| `DispatchRuns.BucketStep` | server/src/transport.rs:138-150 | A dropped duplicate changes no bucket; an accepted request changes its sender's only. |
| `DispatchRuns.DecisionsAreIndependent` | server/src/transport.rs:144-150 | Within one server lifetime a sender's rate decisions are those of its own fresh requests run alone. |
| `DispatchRuns.CountIsAccepted` | server/src/transport.rs:144-151 | The dispatches of a sender in a stretch of a run are the requests its bucket accepted there. |
| `DispatchRuns.DispatchesPerWindow` | server/src/transport.rs:138-152 | At most 10 + w dispatches of one sender in any w seconds without restart. |
| `Client.FirstReactionIs` | wallet/android/app/src/main/java/io/nomadserver/wallet/nostr/NomadClient.kt:118-137 | The first gift that is not ignored settles the wait; if all are ignored, nothing does. |
| `Client.Await` | wallet/android/app/src/main/java/io/nomadserver/wallet/nostr/NomadClient.kt:118-120 | The wait of one attempt ends with the first gift that is not ignored. |
| `Client.Request` | wallet/android/app/src/main/java/io/nomadserver/wallet/nostr/NomadClient.kt:97-125 | The outcome is what the first answer tells, over all attempts before one that cannot be sent, and the attempt it comes in is the last one sent. Without an answer it is a failed sending if some attempt cannot be sent, else the timeout, or `no attempts`. |
| `Client.IgnoredIff` | wallet/android/app/src/main/java/io/nomadserver/wallet/nostr/NomadClient.kt:127-137 | A gift is not ignored if and only if it comes from the server, has kind 25079, parses and has the id; it then gives its result, or the empty object, or throws its code, or `internal`. |
| `Client.HeardDecides` | wallet/android/app/src/main/java/io/nomadserver/wallet/nostr/NomadClient.kt:112-125 | The first answer over all attempts sent decides the outcome, whatever comes later. |
| `Client.UnheardFails` | wallet/android/app/src/main/java/io/nomadserver/wallet/nostr/NomadClient.kt:111-125 | Without an answer the outcome is one of the three failures, each under its exact condition. |
| `EndToEnd.DispatchedAtMostOnce` | server/src/transport.rs:138-152 | Over any run, restarts at any step, each envelope id is dispatched at most once, if it comes again in time and no restart has lost it. |
| `EndToEnd.Origin` | server/src/transport.rs:108-152 | Every response to an honest wallet goes back to one accepted request of that wallet with that id. |
| `EndToEnd.OneAnswer` | server/src/transport.rs:123-152 | The server answers each id of an honest wallet at most once. |
| `EndToEnd.RequestGetsTheAnswer` | wallet/android/app/src/main/java/io/nomadserver/wallet/nostr/NomadClient.kt:97-137 | Whatever `request` returns or throws as a protocol error is the one response the server produced for this wallet and id. |
| `EndToEnd.ResponseIsHeard` | wallet/android/app/src/main/java/io/nomadserver/wallet/nostr/NomadClient.kt:127-137 | The server's response under the id waited for is never ignored, and gives exactly its body or its error code. |
| `EndToEnd.AnswerReachesWallet` | wallet/android/app/src/main/java/io/nomadserver/wallet/nostr/NomadClient.kt:97-137 | If the server's response reaches the wallet in an attempt that was sent, `request` ends with that response, whatever else arrives. |
| `WatcherRuns.LogIsSubsequence` | server/src/watcher.rs:138-209 | Whatever queries, sends and writes fail, as long as crashes are safe: the log is a subsequence of the diffs of successive snapshots, each change once, so nothing is notified twice. |
| `WatcherRuns.WrittenIsSafe` | server/src/watcher.rs:190-209 | A crash is safe when the latest write before it succeeded. |
| `WatcherRuns.UnsafeCrashRepeats` | server/src/watcher.rs:184-209 | After any crash there is a continuation, repeating the observations made since the file last covered the memory, in which exactly the notifications sent for snapshots the file does not cover go out a second time. |
| `WatcherRuns.LogIsComplete` | server/src/watcher.rs:184-198 | Without crashes and lost sends the log is all of it, in order, whichever writes fail. |
| `WatcherRuns.LostWriteNotifiesTwice` | server/src/watcher.rs:201-209 | If the write fails, a crash makes the same notification go out again. |
| `Watcher.Diff` | server/src/watcher.rs:43-59 | Lists each new transaction and each confirmation once, and nothing on first observation. |
| `Watcher.SkipInvalid` | server/src/watcher.rs:142-163 | The addresses that parse, in order. |
| `Watcher.See` | server/src/watcher.rs:172-180 | One address's history extends both maps by exactly its lines. |
| `Watcher.SeeChunk` | server/src/watcher.rs:170-181 | Index `i * BATCH + j` finds the address that history `j` of chunk `i` belongs to. |
| `Watcher.Query` | server/src/watcher.rs:165-182 | The chunked loops compute the maps of the unchunked list of histories; one failed chunk fails the query. |
| `Watcher.TouchedIsExact` | server/src/watcher.rs:166-182 | A transaction is listed with exactly the addresses whose history contains it, and every one in the snapshot with at least one. |
| `Watcher.NoticesNameWatchedAddresses` | server/src/watcher.rs:192-197 | Every notification names at least one address, only addresses of the watch set, and exactly those whose history has the transaction. |
| `Watcher.NotifiedIff` | server/src/watcher.rs:43-59 | A transaction is notified if and only if the wallet was observed before, some address's history has it, and it was unseen, or unconfirmed and is confirmed now; so a newly added address tells its old history. |
| `Watcher.Watcher.Load` | server/src/watcher.rs:83-88 | Memory starts as the file, a missing one as empty; one that cannot be read or parsed is an error. |
| `Watcher.Watcher.Persist` | server/src/watcher.rs:201-209 | The file becomes the memory, or stays. |
| `Watcher.Watcher.SendAll` | server/src/watcher.rs:192-197 | One send per change, in order, each with the touched addresses; a failed one is not repeated. |
| `Watcher.Watcher.TickWallet` | server/src/watcher.rs:138-199 | A wallet's tick is the run observe, persist, send one by one. If its queries succeed its entry becomes the merged map of its histories and no other entry changes; a failed query changes nothing. |
| `Watcher.Watcher.ForgetOthers` | server/src/watcher.rs:127-134 | Exactly the wallets with a watch set are remembered, each with the entry it had, and the file is written if that dropped any. |
| `Watcher.Watcher.Tick` | server/src/watcher.rs:117-136 | After a tick a wallet in the watch store has the merged map of its histories if it was paired and its queries succeeded, else the entry it had; no other wallet has one. The log grows by what each observed wallet is told. All this is a run of the step machine. |
| `Watcher.Watcher.TickWallets` | server/src/watcher.rs:119-126 | The loop passes over unpaired wallets, and a failed wallet does not stop the others: entries, changes listed, log and steps after it. |
| `Watcher.Watcher.TwoTicks` | server/src/watcher.rs:107-136 | A wallet in the watch store in two rounds, observed in both, is told in the second of exactly the transactions that its histories have now and had not, or have confirmed now and had only unconfirmed; each once, with the greatest height and exactly the addresses that have it; nothing else in that round goes to it. |
| `Watcher.DeliveredIs` | server/src/watcher.rs:192-197 | A notification goes out if and only if its own sending succeeds. |
| `Watcher.TickObserves` | server/src/watcher.rs:117-126 | A tick observes exactly the paired wallets of the snapshot whose queries all succeed, with their merged maps. |
| `Notices.FoldCovers` | server/src/watcher.rs:43-59 | Through reorganizations and dropped transactions, folding all notifications onto the first snapshot covers the current one and marks confirmed all that is. |
| `Notices.FoldIsExact` | server/src/watcher.rs:43-59 | If transactions never vanish or unconfirm, the fold has exactly the current transactions, confirmed exactly when they are. |
| `Notices.NoticesInOrder` | server/src/watcher.rs:43-59 | Then each transaction gets at most one mempool notice, then at most one confirmed notice. |
| `Notices.ToldEverything` | server/src/watcher.rs:138-199 | In a run without crashes and lost sends, for a wallet in the file at the start that no tick forgets: it stays known, and its notifications folded onto the first snapshot cover the last one. |
| `Electrs.Electrs.Call` | server/src/electrs.rs:69-105 | One call's effect on `cooldown_until` and `last_call`, for every outcome; it times out no sooner than its 5 s or 30 s. |
| `Electrs.CallIsRun` | server/src/electrs.rs:69-105 | A call alone at the gate is a run of the schedule with the same effect. |
| `Electrs.TasksAreAccounted` | server/src/electrs.rs:79-104 | A backend task runs if and only if its call awaits it, holding the permit, or left it behind by a timeout or by being dropped and it has not ended. |
| `Electrs.OneTaskUnlessLeftBehind` | server/src/electrs.rs:79-104 | Two tasks run at once only if one of them was left behind. |
| `Electrs.DispatchesAreSpaced` | server/src/electrs.rs:79-94 | For any number of callers, dispatches two apart are at least 100 ms apart. |
| `Electrs.DispatchesInWindow` | server/src/electrs.rs:79-94 | A window of w holds at most 2 (w / 100 ms + 1) dispatches. |
| `Electrs.LaterDispatchesClearTheStamp` | server/src/electrs.rs:80-94 | After a dispatch whose call stamped p, every later dispatch comes at p + 100 ms or later. |
| `Electrs.AdjacentSpacingIff` | server/src/electrs.rs:80-94 | The spacing from a dispatch to the next is guaranteed if and only if its call did not sleep, or nobody is past the check and the cooldown outlasts the spacing. |
| `Electrs.CooldownShields` | server/src/electrs.rs:74-104 | During a cooldown no caller joins, it never ends earlier, whoever dispatches was past the check before, and the backlog only shrinks, by at least one per dispatch. |
| `Electrs.TripWrites` | server/src/electrs.rs:98-104 | What a timeout writes, whenever it gets to it, is fifteen seconds after the timeout. |
| `Electrs.TimeoutShields` | server/src/electrs.rs:74-104 | For fifteen seconds from a timeout, once it is written, nobody joins and only callers past the check by then dispatch. |
| `Electrs.JoinsIff` | server/src/electrs.rs:74-78 | A caller passes the check if and only if there is no cooldown or its end has come. |
| `Electrs.CooldownDispatchIff` | server/src/electrs.rs:74-94 | From a state in cooldown a call can dispatch before its end if and only if it is past the check and can be ready by then, other callers giving way. |
| `Electrs.AdjacentDispatchesMayCoincide` | server/src/electrs.rs:80-90 | A run in which two dispatches coincide. |
| `Electrs.TwoTasksMayRun` | server/src/electrs.rs:92-104 | A run with two backend tasks at once: the first timed out after 30 s. |
| `Electrs.QueuedCallerMayDispatchInCooldown` | server/src/electrs.rs:74-79 | A run with a dispatch during the cooldown: its call queued before the first one timed out. |

## Left out

- Electrs.CooldownDispatchIff: the order in which the permit is handed out, and which callers are never dropped, are not modelled; its "only if" half does not depend on them.
- Electrs.Electrs.Call: describes one caller alone; concurrent callers are the step machine of the same module, not concurrent code.
- Transport.Transport.Route: runs to its end in one call; what may happen between admission and handler, and between the two writes of an unpair request (LAN revocation, QR display, restart), is in the step machine of ServerRuns. Requests themselves are handled one at a time, as in the source.
- Transport.Transport.Dispatch: the seven types that only query the backend answer with a body given from outside; get_history is modelled on its own in Handlers.
- RateLimit.RateLimiter.Allow: tokens are natural numbers. The source's f64 holds only whole numbers up to ten, or a sum about to be clamped to ten.
- Deriver.DeriveAddresses: strings are sequences of characters, not UTF-16 units.
- Deriver.ConvertVersion: takes the version as bytes; the hexadecimal constants are given as bytes.
- History.SortTxs: an insertion sort stands for the library's sort; only the result matters. Transaction ids are numbers in the library's order.
- Pairing.PairingManager.PayloadAt: the secret is shown as bytes, not in base64.
- Watcher.Watcher.Tick: the answer of the allowlist for each wallet, which may change during a tick, is given from outside; how it comes about is in ServerRuns.
- Relays, gift wraps, encryption and signatures: a foreign library; messages are authentic and the network may lose, repeat and reorder them.
- JSON, HTML, QR and Compose rendering, routing of HTTP paths, configuration, identity keys, file modes: input and output.
- ping, get_balance, get_utxos, get_transactions, get_fee_estimates, broadcast_tx: one query each, easy members.
- Response liveness: the code does not promise it.
- Texts of error messages and log lines.
- The wallet's target list and sync: thin wrappers over request.
