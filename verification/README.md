# ghostd in Dafny

ghostd looks after a small network's host: it hands out addresses and delegated prefixes from a
durable ledger, relays and translates mDNS between domains, applies firewall changes behind a
dead-man's switch, and takes over from (and hands back to) a legacy dnsmasq. This project models
those five cores and proves what they promise, over every input, every run and every point at
which a run can be cut short.

Bolt buckets are maps, a bolt transaction is one method on a `Database` value that commits or
does not, files are durable fields, and a process that can die is a class whose methods may stop
after any durable step. Where the source mutates an object, the model has a class with those
fields (`DeadMan.Host`, `Ledger.Store`, `Replication.Follower`, `NatPorts.NatRule`,
`NatPorts.Ports`, `Handover.Takeover`).

## The modules

- **The ledger.** `Bindings` has the records, the event log and what it means for a log to keep
  ownership exclusive. `Database` has `save` with its four secondary indexes, the expiry index and
  the DNS index; `Lookups` the cursor lookups; `Allocation`, `Delegation`, `Sweep`, `Import` and
  `Identity` the transactions; `Ledger` whole runs of them. `Invisibility` compares runs with and
  without a sweep, `History` is point-in-time snapshots, `Replication` the warm standby.
  `Prefixes` is the arithmetic of prefix delegation (section 6.3 of RFC 8415).
- **Addresses.** `Spelling` is ownership of addresses as numbers, where the ledger is keyed by
  their texts.
- **The lease file.** `LeaseText` and `LeaseFile` print and parse dnsmasq's format; `Import`
  closes the round trip into the ledger.
- **The takeover.** `Handback` says what a rollback gives back and when it is accepted,
  `Exportability` that the ledger's own operations keep it possible; `Handover` is the journaled
  state machine between the two allocators, whose daemon runs the commands of `Ledger`, and
  `Standing` has the facts that machine carries along.
- **The dead-man's switch.** `DeadMan`.
- **mDNS.** `ClassSets` and `Relays` are the relay closure; `Names`, `NatPorts` and `NatFabric`
  the NAT port pool.

`Strings`, `Sets` and `Configs` hold what these share: byte-string keys and their order, and the
facts a validated configuration provides. `Inputs` runs the operations, from an empty ledger, on
inputs at which a promise fails.

## Where the code and what it promises part

The code is followed in each case; the members named give the condition, and an input where it fails.

- A NAT instance is deleted under a key rebuilt from its display name, while it is filed under its
  announced name. The two agree exactly when the name ends in the class, in lower case as
  configured, and `.local.`, and the instance part has no backslash once unescaped
  (`Names.RoundTripsExactly`, `NatPorts.GoodbyeExactly`). For an instance such as `A\\B`, or a
  class announced in upper case, they differ (`Names.BackslashDisagrees`,
  `Names.UpperCaseDisagrees`). Then a goodbye frees the port and leaves the instance published on
  it, for the port to go to anyone (`NatPorts.MissedGoodbye`); and when its records lapse every
  sweep withdraws it again, reports a change again and still leaves it (`NatPorts.SweepMisses`,
  `NatPorts.NatRule.Sweeps`). The harm stays with the source that announced the name: the ports of
  all other sources are untouched whatever it says, and rules whose own names agree keep an exact
  pool and different ports (`NatFabric.Fabric.Run`). In a rule out of order a mapping can also be
  lost while learning reports no change: when a missed goodbye freed its port, another took it, and
  the host then moved (`NatFabric.LostSilently`).
- Two NAT rules from one source interface to one destination share an owner string. The rules of a
  plan have different sources exactly when no pair of interfaces was named twice
  (`NatFabric.SourcesApart`); the configuration check rejects repeated endpoint tokens only, and
  patterns may overlap, so a plan may name a pair twice (`NatFabric.PairTwice`). An instance that
  both rules learn is then published twice on one port (`NatFabric.Fabric.SharedSource`,
  `NatFabric.PairClashes`).
- `AllocatePrefix` does not look at quarantines when it decides that a prefix is free. It need not:
  in every ledger in order a delegable prefix is free by its test exactly when nobody else holds
  it, quarantines included (`Delegation.FreeIsUnheld`). Declining a delegated prefix is what would
  put a ledger out of order, and the only release that does (`Allocation.Release`).
- Importing never shortens an active lease. What is held gets an earlier end from an import exactly
  when it is an offer and the import is the same client's own lease (`Import.ImportShortens`,
  `Inputs.OfferShortened`).
- The rollback's second import is meant never to fail. It is refused exactly when the server
  identity of the snapshot can no longer be adopted, or is needed and gone
  (`Handback.ReimportExactly`, `Inputs.ReimportRefused`); as long as the identity the takeover left
  is kept, it is accepted (`Handback.ReimportAccepted`).
- One live binding that cannot be exported can make the handed-back file unreadable, as one of a
  scope the configuration no longer has always does (`LeaseFile.RemovedUnreadable`). A grant to a
  real client can be exported exactly when its address is written canonically
  (`Exportability.GrantExportable`), and so can an import (`Handback.PutExportable`); with canonical
  texts and real clients every operation under one configuration leaves only what can be exported
  (`Ledger.StepKeepsExportable`). In a file that can be read no other line is lost with one that
  cannot be exported (`LeaseFile.ExportIncludes`).
- Ownership is of address texts. Reservations, imports and requests are taken in any spelling that
  parses, and compared as written. A reservation keeps its address from other clients exactly if it
  is spelled canonically (`Spelling.ReservedExactly`), and whatever is held in another spelling
  leaves the canonical text to the next client that asks (`Spelling.TwoHolders`): with the
  reservation `2001:DB8::5` (`Inputs.SpelledReservation`), or with an import of it
  (`Inputs.SpelledImport`), two clients hold one address. As long as reservations, imports and
  requests are of canonical texts no address has two holders in any run
  (`Ledger.Store.RunNumbers`).
- A standby stamps what it mirrors with its own clock. Its present snapshot is the leader's
  (`Replication.PromotedAnswersAlike`). Of a past instant it shows what the leader's log does when,
  by its clock at that instant, it had applied exactly the events stamped until then
  (`Replication.Follower.RunPast`); of one event, exactly when the instant is before both stamps or
  after both (`Replication.PastExactly`).
- Switching scopes on by an ordinary configuration change is not tied to the takeover. Right after
  it the two allocators are apart exactly if the scopes are off, or the journal says activated and
  the legacy is not running; and what keeps them apart from then on holds exactly if a takeover was
  confirmed or the scopes are off (`Handover.Takeover.Reconfigure`).
- The index claims start from a store built by `save`, with non-empty names free of the key
  separators, which is what validation and the generated device names provide.

## Model

| member | source | states |
|---|---|---|
| `Bindings.KeyInjective` | internal/addressbook/store.go:148 | scope and address can be read off a bucket key, so two bindings never share one |
| `Bindings.ReplayLast` | internal/addressbook/store.go:252-269 | the replayed ledger holds, at each address, exactly what its last event wrote |
| `Bindings.IntervalsNeverOverlap` | internal/addressbook/allocate.go:85-95 | in a log of lawful writes, while a holding runs the next event on its address is the same client's, and nothing follows a decline before its quarantine ends |
| `Bindings.DelegationsUnique` | internal/addressbook/pd.go:70-112 | in the ledger of a lawful log a client holds at most one delegation of a scope, and no delegation is quarantined |
| `Bindings.WriteKeepsUnique` | internal/addressbook/pd.go:81-93 | one lawful write keeps every client at one delegation, also when it rewrites the one it holds |
| `Database.EntryIdentifies` | internal/addressbook/index.go:36-59 | an index entry determines the binding it stands for |
| `Database.DnsKeyIdentifies` | internal/addressbook/store.go:169 | so does a DNS key |
| `Database.Reindex` | internal/addressbook/index.go:62-74 | the old binding's entries leave the index, the new one's are in it, all others stay |
| `Database.IndexedUpdate` | internal/addressbook/index.go:36-74 | swapping those entries turns the full derived index of the old ledger into that of the new one |
| `Database.DnsUpdate` | internal/addressbook/store.go:175-197 | the same for the DNS index: exactly the active, non-delegated bindings resolve |
| `Database.ExpiriesUpdate` | internal/addressbook/store.go:163-192 | the same for the expiry index: exactly the live bindings, under their ends |
| `Database.RewriteDns` | internal/addressbook/store.go:175-197 | the DNS bucket loses the old name and gains the new one, and nothing else changes |
| `Database.Save` | internal/addressbook/store.go:170-217 | the ledger gains the binding, the log one event not older than any before, every index again holds exactly what a full scan derives, and a lawful write keeps the ledger invariant |
| `Database.LogExtended` | internal/addressbook/store.go:205-217 | a lawful write appended to a lawful log is a lawful log that replays to the new ledger |
| `Database.Audit` | internal/addressbook/store.go:415-430 | an event without a binding leaves ledger and indexes alone and keeps the invariant |
| `Lookups.LiveFromIndex` | internal/addressbook/index.go:87-114 | the cursor walk over a prefix returns exactly the live bindings whose own index key has that prefix, each once |
| `Lookups.LiveByClient` | internal/addressbook/index.go:126-128 | exactly the live bindings of one client in one scope, as a full scan would find them |
| `Lookups.LiveByClientPrefix` | internal/addressbook/index.go:132-150 | exactly the live bindings whose client starts with the prefix, in any scope |
| `Lookups.LiveByAddress` | internal/addressbook/index.go:153-155 | exactly the live bindings at an address |
| `Lookups.LiveByMac` | internal/addressbook/index.go:158-160 | exactly the live bindings of a hardware address |
| `Lookups.ActiveByName` | internal/addressbook/index.go:163-172 | exactly the active bindings carrying a name |
| `Lookups.AllLive` | internal/addressbook/index.go:190-209 | exactly the live bindings of the ledger |
| `Lookups.DnsBindings` | internal/addressbook/store.go:361-390 | by address exactly the unexpired active binding there; by name exactly the unexpired active, non-delegated bindings of that scope and name |
| `Allocation.ChoiceAvailable` | internal/addressbook/allocate.go:85-120 | what is chosen is permitted to the client, and free or its own, and not quarantined |
| `Allocation.DiscoverComplete` | internal/addressbook/allocate.go:103-120 | a discover fails only when nothing the client may have is available, as the pool or its reservation spells it |
| `Allocation.GrantLasts` | internal/addressbook/allocate.go:66-120 | what was offered or granted stays the client's until it ends: its request for that address succeeds, and nobody else is given the address, whatever they ask for and whatever pool and reservations have become |
| `Allocation.RediscoveryKeepsAddress` | internal/addressbook/allocate.go:70-84 | a client that holds an address it may keep is offered one it holds, whatever it hints |
| `Allocation.AvailableLawful` | internal/addressbook/allocate.go:85-95 | writing an available address takes nothing from anybody |
| `Allocation.GrantedWellFormed` | internal/addressbook/allocate.go:129-171 | the granted record has a name and fields that keep the index keys injective |
| `Allocation.Choose` | internal/addressbook/allocate.go:66-120 | the transaction's own lookups and pool walk arrive at the specified choice |
| `Allocation.LastOwn` | internal/addressbook/allocate.go:76-80 | the loop keeps the last address of the client it may still have |
| `Allocation.Allocate` | internal/addressbook/allocate.go:44-175 | hardware addresses in any of their forms are taken, in canonical form; the answer is the specified outcome, a refusal writes nothing, a grant changes one address only, the log only grows and the ledger invariant is kept |
| `Allocation.Release` | internal/addressbook/allocate.go:176-196 | it succeeds exactly for the client that holds the address; a decline quarantines it for 600 seconds; nothing else changes; the invariant is kept exactly unless a delegated prefix was declined |
| `Sweep.Due` | internal/addressbook/allocate.go:200-207 | the due entries of the expiry index, oldest first, at most 1000, and all of them unless there are that many |
| `Sweep.Expire` | internal/addressbook/allocate.go:198-225 | exactly lapsed live bindings are marked expired, and none is left unless 1000 were processed |
| `Sweep.SweptAgain` | internal/addressbook/allocate.go:200-225 | sweeping twice, later, is sweeping once |
| `Sweep.DueAreLapsed` | internal/addressbook/allocate.go:200-217 | every due entry is a lapsed live binding under its own end |
| `Invisibility.AllocateSwept` | internal/addressbook/allocate.go:65-172 | a sweep at the same instant changes no answer of Allocate |
| `Invisibility.AllocatePrefixSwept` | internal/addressbook/pd.go:61-157 | nor of AllocatePrefix |
| `Invisibility.ReleaseSwept` | internal/addressbook/allocate.go:176-196 | nor whether a release succeeds, nor what it writes |
| `Invisibility.DnsSwept` | internal/addressbook/store.go:361-390 | nor which bindings a DNS lookup can return |
| `Invisibility.AllocateBothWays` | internal/addressbook/allocate.go:44-225 | running Allocate directly and after Expire gives one answer, and ledgers that differ by the sweep's marks only |
| `Invisibility.AllocatePrefixBothWays` | internal/addressbook/pd.go:61-157 | the same for AllocatePrefix, at the instant the clock reads after the sweep |
| `Invisibility.ReleaseBothWays` | internal/addressbook/allocate.go:176-225 | the same for Release |
| `Invisibility.DnsBothWays` | internal/addressbook/store.go:361-390 | the same for DNS lookups |
| `History.CollectEvents` | internal/addressbook/store.go:252-270 | the fold over the log up to an instant collects exactly the matching bindings of the ledger replayed to that instant |
| `History.CollectBindings` | internal/addressbook/store.go:236-251 | for the present it collects the same from the bindings themselves |
| `History.Snapshot` | internal/addressbook/store.go:218-334 | a snapshot shows the ledger as of its instant, lapsed bindings as expired; the future and negative instants are refused |
| `History.PastIsStable` | internal/addressbook/store.go:218-276 | a snapshot of a past instant, whenever taken, equals the current snapshot taken then, once that second's last event was written |
| `History.SweepNeverShows` | internal/addressbook/store.go:218-276 | a sweep changes the bindings of no snapshot: present, past or later |
| `History.ReplaySweep` | internal/addressbook/allocate.go:200-225 | replaying any part of a sweep's events marks lapsed bindings and nothing else |
| `Replication.Events` | internal/addressbook/store.go:335-357 | one page is exactly the events after the cursor, up to the limit; limits outside 1..1000 are refused |
| `Replication.ApplyReplicated` | internal/addressbook/replicate.go:43-123 | for any batch that overlaps or continues what was applied, the mirror is the fold of the leader's log up to the new cursor, apart from its own sweeps, and has the leader's associations and server identity; an identity that does not decode changes nothing; the ledger invariant is kept as long as the clock is not behind the stamps applied |
| `Replication.LawfulSwept` | internal/addressbook/replicate.go:66-70 | what was lawful for the leader to write is lawful to write over the mirror, swept or not |
| `Replication.Mirror` | internal/addressbook/replicate.go:50-70 | one event advances the fold by one, and keeps the invariant when its stamp is not ahead of the clock |
| `Replication.PageContinues` | internal/replica/replica.go:61-75 | a page requested after a gapless batch continues it without a gap, though the log grew meanwhile |
| `Replication.FetchAll` | internal/replica/replica.go:59-75 | the paging loop fetches a gapless run from the cursor to the end of the log one request saw |
| `Replication.Follower.SyncOnce` | internal/replica/replica.go:51-100 | a failed sync changes nothing; a successful one has caught up with the leader and has its associations, and the mirror stays the fold up to its cursor, in order while the clock keeps abreast |
| `Replication.Follower.Sweep` | cmd/ghostd/dhcp_feature.go:156-159 | the standby's own expiry keeps the mirror a mirror |
| `Replication.Follower.Run` | internal/replica/replica.go:102-127 | so does any interleaving of syncs, failures and sweeps |
| `Replication.Follower.RunPast` | internal/addressbook/store.go:252-276 | a standby that by its clock t had applied exactly the leader's events stamped by t shows of t, at any later time, what the leader's log shows |
| `Replication.PastExactly` | internal/addressbook/replicate.go:66-70 | of a log of one event and its mirror the views of an instant agree exactly when it is before both stamps or after both |
| `Replication.Follower.Promote` | internal/replica/replica.go:145-176 | a standby whose clock kept abreast is promoted to a store in order, to which everything said of `Ledger.Store` applies |
| `Replication.PromotedAnswersAlike` | internal/replica/replica.go:145-176 | promoted, the standby's present snapshot is that of the leader's log up to its cursor, and grants, delegations, releases, declines and DNS lookups are answered as from that log |
| `Prefixes.AddCarry` | internal/addressbook/pd.go:28-36 | the byte loop adds the carry, as a number modulo 2^128 |
| `Prefixes.PrefixAt` | internal/addressbook/pd.go:25-38 | the loop computes the pool's address plus i times the size of a delegated prefix |
| `Prefixes.PoolPrefixAt` | internal/addressbook/pd.go:25-38 | on a validated pool it yields exactly the i-th delegable prefix, which is in the pool |
| `Prefixes.DelegableInPool` | internal/addressbook/pd.go:40-45 | every index below poolSize names a delegable prefix of the pool |
| `Prefixes.PoolCovered` | internal/addressbook/pd.go:43-45 | every delegable prefix of the pool has such an index |
| `Prefixes.DelegableDisjoint` | internal/addressbook/pd.go:25-38 | different indexes name disjoint address ranges |
| `Prefixes.InPoolDisjoint` | internal/addressbook/pd.go:43-45 | two delegable prefixes of one pool are equal or disjoint |
| `Prefixes.PoolSpan` | internal/addressbook/config.go:260-285 | a validated pool is poolSize times the delegated size and ends within the address space |
| `Prefixes.PoolSizeBound` | internal/addressbook/config.go:260-285 | validation bounds a pool at 65536 prefixes, so the index arithmetic cannot overflow |
| `Delegation.ExhaustedExact` | internal/addressbook/pd.go:94-111 | delegation fails only when the client holds nothing and every delegable prefix is actively held by another client |
| `Delegation.DelegationLasts` | internal/addressbook/pd.go:70-112 | a delegation stays the client's until it ends: a later choice, under any hint and whatever pool the scope has become, is that prefix exactly for that client |
| `Delegation.FreeIsUnheld` | internal/addressbook/pd.go:62-69 | in a ledger in order `free` holds of a delegable prefix exactly when no other client holds it, quarantines included |
| `Delegation.HoldingUnique` | internal/addressbook/pd.go:70-80 | a client's holdings in a scope are at most one, so the loop's last match is the only one |
| `Delegation.HeldDelegationsDisjoint` | internal/addressbook/pd.go:56-112 | under a fixed pool, different held delegations are disjoint address ranges |
| `Delegation.DelegableTexts` | internal/addressbook/pd.go:94-100 | the loop over prefixAt enumerates exactly the delegable prefixes of the pool, in order |
| `Delegation.InOrderPoolServed` | internal/addressbook/pd.go:56-112 | in a ledger in order whose delegations are of the pool: held delegations are disjoint, a client holds at most one, and a client that holds none gets one exactly unless others hold them all |
| `Delegation.AllocationStaysInPool` | internal/addressbook/pd.go:81-112 | a delegation is made from the pool |
| `Delegation.ChoosePrefix` | internal/addressbook/pd.go:70-112 | what is held, else a usable hint, else the lowest free prefix |
| `Delegation.FindRouter` | internal/addressbook/pd.go:126-139 | the device a prefix is attributed to is the active holder of the same DUID's address, when there is one |
| `Delegation.AllocatePrefix` | internal/addressbook/pd.go:56-159 | the answer is the specified outcome, one prefix changes at most, the log only grows and the ledger invariant is kept |
| `Delegation.ReleasePrefix` | internal/addressbook/pd.go:161-185 | it succeeds exactly when the client holds a delegation, and afterwards it holds none |
| `Delegation.AbandonDelegations` | internal/addressbook/handover.go:513-552 | every live delegation of the pools ends now, is counted, and nothing else changes |
| `Spelling.SpelledApart` | internal/addressbook/store.go:148 | in a ledger of canonical texts no address, as a number, has two holders |
| `Spelling.ChoiceSpelled` | internal/addressbook/allocate.go:29-42 | of canonical reservations, a canonical request and a ledger of canonical texts the choice is canonical and of the scope's subnet |
| `Spelling.ReservedExactly` | internal/addressbook/allocate.go:34-42 | a reservation keeps its address from a client that has none exactly if it is spelled canonically |
| `Spelling.TwoHolders` | internal/addressbook/allocate.go:85-120 | while something is held in another spelling and nobody holds the canonical text, a client permitted to have that text is granted it, and the address has two holders |
| `Spelling.ImportSpelled` | internal/addressbook/allocate.go:279-339 | an import of canonical texts leaves canonical texts |
| `Inputs.CapitalsSpell` | internal/addressbook/config.go:308-317 | `2001:db8::5` and `2001:DB8::5` are two spellings as the inputs below take them |
| `Inputs.SpelledReservation` | internal/addressbook/config.go:308-317 | with a reservation in capitals, its client and another are each granted the address |
| `Inputs.SpelledImport` | internal/rpc/dhcp.go:148-171 | with canonical reservations and an import in capitals, the imported client and another hold the address |
| `Inputs.OfferShortened` | internal/addressbook/allocate.go:305-338 | importing a client's lease that has ten seconds left over its offer of thirty puts the lease |
| `Inputs.ReimportRefused` | internal/addressbook/dhcp6.go:238-271 | a snapshot that was accepted is refused by a ledger that has another server identity and a DHCPv6 record |
| `Import.DecideLawful` | internal/addressbook/allocate.go:305-338 | a record is put over a held address only for the same client, never over a quarantine, never shortening an active lease |
| `Import.ImportShortens` | internal/addressbook/allocate.go:305-338 | an import leaves a held address an earlier end exactly when it puts the same client's shorter lease over its offer |
| `Import.PutLawful` | internal/addressbook/allocate.go:261-359 | what an import puts is well-formed and taken from nobody |
| `Import.ImportDocument` | internal/addressbook/allocate.go:250-362 | all leases or none; no held address changes hands, loses its quarantine or has its active lease shortened; no delegation is made; the invariant is kept |
| `Import.ClientReturns` | internal/addressbook/allocate.go:288-294 | the exported lease of a client comes back under the same identity |
| `Import.Marker4Returns` | internal/addressbook/allocate.go:364-372 | an exported IPv4 lease is read as our quarantine marker exactly when it was a quarantine |
| `Import.Marker6Returns` | internal/addressbook/allocate.go:364-372 | the same for DHCPv6 |
| `Import.ExportLands` | internal/addressbook/allocate.go:305-358 | importing an exported lease, into the ledger it came from or one with nothing live there, is never refused and keeps address, end and holder |
| `Import.LeasesLand` | internal/addressbook/allocate.go:261-358 | so do all of a file's leases, in sequence |
| `Import.ExportImports` | internal/addressbook/dnsmasq.go:16-128 | exporting live bindings, parsing the file and importing it preserves scope, address, end and owner, keeps quarantines quarantines, never conflicts and changes nothing else |
| `LeaseText.DecRoundTrip` | internal/addressbook/dnsmasq.go:34-37 | a printed number reads back |
| `LeaseText.HexRoundTrip` | internal/addressbook/dnsmasq.go:53-58 | a DHCPv6 identifier survives its decimal form and comes back as eight hex digits |
| `LeaseText.ColonHexRoundTrip` | internal/addressbook/dnsmasq.go:68-74 | removing the colons undoes printing with colons |
| `LeaseText.PrintColonHex` | internal/addressbook/dnsmasq.go:68-74 | the loop prints what colonHex means |
| `LeaseText.FieldsUnfields` | internal/addressbook/dnsmasq.go:18-29 | fields joined by blanks split into the same fields |
| `LeaseText.SplitUnlines` | internal/addressbook/dnsmasq.go:127 | lines joined by newlines split into the same lines |
| `LeaseFile.ExportDnsmasq` | internal/addressbook/dnsmasq.go:79-128 | the printed file is the server identity and one line for each live binding it has a form for, or nothing when one cannot be printed |
| `LeaseFile.ParseDnsmasq` | internal/addressbook/dnsmasq.go:16-67 | the loop reads what the text means: one bad line, or an address of no one scope, fails the file |
| `LeaseFile.Fields4ParseBack` | internal/addressbook/dnsmasq.go:30-63 | the five fields of an IPv4 line parse to the lease they were printed from |
| `LeaseFile.Fields6ParseBack` | internal/addressbook/dnsmasq.go:53-59 | those of an IPv6 line too |
| `LeaseFile.LineReadsBack` | internal/addressbook/dnsmasq.go:84-126 | a printed binding is one line, and reads back as its lease |
| `LeaseFile.ExportParsesBack` | internal/addressbook/dnsmasq.go:16-128 | parsing an exported file gives the server identity and a lease for every exported binding, in order, and nothing else |
| `LeaseFile.ExportIncludes` | internal/addressbook/dnsmasq.go:79-128 | whenever the printed file can be read, every exportable binding's lease is in it, whatever the other bindings print |
| `LeaseFile.OneBadLine` | internal/addressbook/dnsmasq.go:30-66 | one line that cannot be read takes the whole file with it |
| `LeaseFile.RemovedUnreadable` | internal/addressbook/dnsmasq.go:42-52 | such is the line of a live binding whose scope the configuration no longer has |
| `Identity.Collect` | internal/addressbook/identity.go:36-84 | a report's matches are exactly what its interfaces give evidence for, each once |
| `Identity.Settle` | internal/addressbook/identity.go:85-108 | one device is agreed exactly when no match is disputed and all declared devices coincide |
| `Identity.ChooseName` | internal/addressbook/identity.go:109-130 | an undeclared node gets its own label unless the inventory or another node's live binding has it |
| `Identity.Report` | internal/addressbook/identity.go:17-169 | all joins or none; the ledger changes at matched addresses only; every held address keeps client, identifiers, state and, unless a mere sighting, its end, and none is newly held but by sighting; conflicts are logged |
| `Identity.JoinsKeepOwners` | internal/addressbook/identity.go:131-156 | attribution never moves a holding |
| `Identity.RepairOne` | internal/addressbook/observations.go:235-276 | a change applies exactly when it is sound, unmoved and uncontested, and rewrites attribution only |
| `Identity.Repair` | internal/addressbook/observations.go:229-281 | all changes or none, each seeing the ones before it; every holding stays with its holder |
| `Ledger.ValidNoOverlap` | internal/addressbook/store.go:170-217 | a ledger that keeps the invariant has a log without overlapping ownership |
| `Ledger.OnlyDelegateDelegates` | internal/addressbook/pd.go:117-156 | no operation but AllocatePrefix makes a live delegation or extends one |
| `Ledger.StepStaysInPool` | internal/addressbook/pd.go:56-159 | every step keeps a fixed scope's held delegations inside its pool |
| `Exportability.GrantExportable` | internal/addressbook/allocate.go:129-171 | what Allocate grants a real client can be exported exactly when its address is written canonically and is in its own scope only |
| `Exportability.ReleaseExportable` | internal/addressbook/allocate.go:176-196 | a declined address stays exportable, as a quarantine |
| `Exportability.AttributionExportable` | internal/addressbook/identity.go:131-156 | reports and repairs touch nothing an export prints of a holding |
| `Exportability.ExportableOff` | internal/addressbook/dnsmasq.go:42-52 | whether a binding can be exported does not depend on which scopes are on |
| `Exportability.AllExportableOff` | internal/addressbook/dnsmasq.go:42-52 | nor does whether everything live can be |
| `Ledger.StepKeepsExportable` | internal/addressbook/dnsmasq.go:79-128 | every ledger operation leaves live bindings that can all be exported |
| `Ledger.StepStaysExportable` | internal/addressbook/dnsmasq.go:79-128 | so does every step under a configuration alike but for which scopes are on, as when leases are imported with scopes off and served with them on |
| `Ledger.StepKeepsSpelled` | internal/addressbook/allocate.go:44-362 | every ledger operation whose reservations, requests and imports are canonical texts leaves canonical texts |
| `Ledger.Transact` | internal/addressbook/allocate.go:44-362 | each command has its specified effect, brings a server identity only by an import or where one is generated because there is none, appends to the log and keeps the invariant |
| `Ledger.Store.Perform` | internal/addressbook/store.go:86-147 | a committed step has its specified effect, one whose commit fails leaves the ledger as it was |
| `Ledger.Store.Run` | internal/addressbook/allocate.go:44-362 | over every run of all operations, under changing configurations and failing commits: ownership never overlaps, events are never rewritten, indexes and log agree with the ledger; delegations stay in a fixed pool, and under a configuration that changes only in which scopes are on every live binding can be exported |
| `Ledger.Store.RunPool` | internal/addressbook/pd.go:56-159 | over every run that leaves a scope's pool as prefixAt enumerates it: held delegations are disjoint prefixes of the pool, one per client, and a client is told there is none exactly when it holds none and others hold them all |
| `Ledger.Store.RunNumbers` | internal/addressbook/store.go:148 | over every run under configurations of the same subnets, as long as reservations, requests and imports are canonical texts, no address has two holders as a number |
| `DeadMan.Host.constructor` | internal/state/transaction.go:69-85 | a new host is settled on its confirmed state |
| `DeadMan.Host.Save` | internal/state/transaction.go:87-100 | a save that fails leaves the old or the new record |
| `DeadMan.Host.Commit` | internal/rpc/server.go:193-199 | a failed commit may leave anything in the kernel |
| `DeadMan.Host.Restore` | cmd/ghostd/main.go:159-170 | restoring replaces the table exactly, or leaves it |
| `DeadMan.Host.RecoverExpired` | internal/rpc/server.go:258-293 | an expired lease's snapshot is restored before a new one is taken, a running lease refuses and changes nothing |
| `DeadMan.Host.Begin` | internal/rpc/server.go:295-319 | the pending lease is durable, with the live table as its snapshot and a fresh identifier, before the first mutation |
| `DeadMan.Host.FinishApply` | internal/rpc/server.go:231-246 | only a completed mutation becomes confirmable |
| `DeadMan.Host.ApplyFirewall` | internal/rpc/server.go:160-201 | a granted lease runs the target under an armed rollback; every other end keeps the settled state recoverable |
| `DeadMan.Host.Confirm` | internal/rpc/server.go:321-387 | the only step that changes what is settled, and only to the live table of the named, applied, unexpired lease from another peer |
| `DeadMan.Host.RecoverDomain` | cmd/ghostd/main.go:142-182 | boot leaves no pending lease and the confirmed table live; a pending record is cleared only with its snapshot restored; a timer whose lease is not the pending one changes nothing |
| `DeadMan.Host.RunRevert` | cmd/ghostd/main.go:184-191 | a firing clears the record only for its own pending lease and only with the snapshot restored; for an ended lease it changes neither record nor table |
| `DeadMan.Host.Boot` | cmd/ghostd/main.go:219-233 | the daemon serves only once recovery completed |
| `DeadMan.Host.Reboot` | cmd/ghostd/main.go:219-233 | losing the kernel table loses no settled state that is on disk |
| `DeadMan.Host.Run` | internal/rpc/server.go:160-387 | in every run, with crashes and failed saves anywhere: without a pending lease the live table is the settled one, with one its snapshot is; each lease ends at most once |
| `DeadMan.Host.FireLate` | cmd/ghostd/main.go:184-191 | timers may fire for any leases, any number of times, with applies, confirmations, boots, deaths and reboots between: a firing changes record or table only for a lease that had not ended, and ends each lease at most once, rolled back |
| `Handback.ParseOff` | internal/addressbook/dnsmasq.go:16-67 | what a lease file says does not depend on which scopes are switched on |
| `Handback.TextParsed` | internal/addressbook/dnsmasq.go:30-64 | every parsed lease has a canonical address in its own scope and identifiers that print |
| `Handback.ImportExportable` | internal/addressbook/allocate.go:313-355 | an importable lease's record can be exported exactly when the imported text is canonical |
| `Handback.PutExportable` | internal/addressbook/allocate.go:313-355 | what an import puts is live and of a kind the file has a form for, and can be exported exactly when the imported text is canonical |
| `Handback.ImportHolds` | internal/addressbook/allocate.go:250-362 | after an import every unexpired lease of the file is held at least as long by its client, and whatever was written can be exported |
| `Handback.ImportAgrees` | internal/addressbook/allocate.go:305-338 | the leases of an accepted import agree: two unexpired ones at one address are of one client, or both quarantines |
| `Handback.ReimportExactly` | internal/addressbook/handover.go:425-454 | once a document was imported, importing later, into any ledger, those of its leases nobody holds is accepted exactly when its server identity can be adopted, and is known if one of them needs it |
| `Handback.ReimportAccepted` | internal/addressbook/handover.go:425-454 | so it is accepted as long as the server identity that import left is kept |
| `Handback.ExportCovers` | internal/addressbook/dnsmasq.go:79-128 | whenever the file of an exported ledger parses, it has a lease for every live binding that can be exported |
| `Handback.ExportReadable` | internal/addressbook/dnsmasq.go:79-128 | when all live bindings can be exported, the file is written and parses |
| `Handback.HeldReturned` | internal/addressbook/handover.go:445-465 | a snapshot lease the ledger holds is in a covering file: same address and client, at least as long |
| `Handback.QuarantineMarked` | internal/addressbook/dnsmasq.go:84-126 | a quarantine that can be exported comes back as a marker line, with its end |
| `Handback.MarkerReturned` | internal/addressbook/handover.go:445-465 | a quarantine marker of the snapshot at an address nobody held, quarantined still, comes back as a marker line |
| `Handback.ReimportHandsBack` | internal/addressbook/handover.go:425-466 | re-importing the snapshot leases nobody holds and exporting the ledger: the file parses if everything live could be exported, and whenever it parses it has every exportable live binding, quarantines as markers, and every due lease and quarantine of the snapshot |
| `Handback.MissingLeases` | internal/addressbook/handover.go:439-450 | exactly the snapshot's leases whose address is not live |
| `Handback.ListBindings` | internal/addressbook/handover.go:455-458 | exactly the bindings of the current snapshot |
| `Standing.TakenAgain` | internal/addressbook/handover.go:445-454 | a snapshot that was imported is accepted again by the rollback, and leaves the server identity |
| `Standing.ReadyImport` | internal/addressbook/handover.go:323-329 | importing the snapshot leaves everything live exportable |
| `Standing.Transact` | internal/addressbook/allocate.go:44-362 | so does any command of real clients under the target, and it leaves the snapshot importable unless it changes the server identity |
| `Standing.ReadyReadable` | internal/addressbook/handover.go:455-466 | what is handed back of a ledger that could be exported can be read |
| `Handover.Takeover.constructor` | internal/addressbook/handover.go:229-243 | a host that runs the legacy allocator and serves nothing is safe |
| `Handover.Takeover.SaveJournal` | internal/addressbook/handover.go:244-256 | a journal write that fails leaves either journal, and both are safe |
| `Handover.Takeover.ApplyConfig` | internal/addressbook/server.go:74-277 | a failed apply leaves the served configuration and either file; scopes go on only when the journal and the legacy allocator allow it |
| `Handover.Takeover.StopLegacy` | internal/addressbook/legacy.go:39-55 | success means masked and stopped |
| `Handover.Takeover.StartLegacy` | internal/addressbook/handover.go:477-479 | whenever it is called, ghostd's scopes are off in memory and on disk; before activation the lease file is what the legacy wrote, after it everything is handed back |
| `Handover.Takeover.Begin` | internal/addressbook/handover.go:261-309 | intent is on disk before the legacy stops; every failure is rolled back or left for recovery |
| `Handover.Takeover.Advance` | internal/addressbook/handover.go:310-343 | each step of a takeover leaves a journal, on disk and in memory, that recovery can use |
| `Handover.Takeover.TakeSnapshot` | internal/addressbook/handover.go:311-322 | the journaled snapshot is the stopped legacy's file |
| `Handover.Takeover.Activate` | internal/addressbook/handover.go:338-342 | scopes go on only after the right to serve is on disk |
| `Handover.Takeover.ImportSnapshot` | internal/addressbook/handover.go:323-329 | a takeover proceeds only with a snapshot that parses and was imported, and from then on it is owed: importable again, and exportable with everything live if that was so before |
| `Handover.Takeover.Confirm` | internal/addressbook/handover.go:344-406 | only a pending, verified takeover within its deadline is confirmed |
| `Handover.Takeover.Rollback` | internal/addressbook/handover.go:407-486 | done means at rest with the legacy allocator running, every scope off in memory and on disk, and after activation everything handed back; it is refused only for a configuration changed since, a changed server identity, bindings that could not be exported before the takeover, commands not of real clients with canonical texts under the target, reservations not written canonically, or ends past 64-bit time, and otherwise the legacy's file parses |
| `Handover.Takeover.GiveLegacy` | internal/addressbook/handover.go:425-479 | the legacy allocator is started only after everything was handed back |
| `Handover.Takeover.HandBack` | internal/addressbook/handover.go:425-473 | after activation the lease file has every exportable live binding and every due snapshot lease, also once delegations are ended; it parses, and nothing is refused, while the takeover is owed in full |
| `Handover.Takeover.Export` | internal/addressbook/handover.go:431-462 | neither the second import nor the export is refused while the takeover is owed in full |
| `Handover.Takeover.Restart` | internal/addressbook/handover.go:474-479 | the previous configuration is left off before the legacy starts |
| `Handover.Takeover.Recover` | cmd/ghostd/dnsmasq_feature.go:50-72 | an interrupted or expired takeover ends at rest, or stays journaled; one that was confirmed or is at rest is left alone |
| `Handover.Takeover.Tick` | cmd/ghostd/dhcp_feature.go:118-155 | recovery and reload, at any time, keep every invariant |
| `Handover.Takeover.Boot` | cmd/ghostd/dhcp_feature.go:48-116 | a boot that succeeds serves what is on disk, one that fails serves nothing, and neither undoes a confirmed takeover |
| `Handover.Takeover.Reboot` | internal/addressbook/legacy.go:39-55 | a masked legacy allocator does not come up |
| `Handover.Takeover.LegacyServes` | internal/addressbook/handover.go:20-28 | while it runs, the lease file is the legacy's own |
| `Handover.Takeover.Serve` | internal/addressbook/allocate.go:44-362 | any command of the daemon, under the configuration it serves, keeps the takeover owed as far as it is one of real clients under the target and keeps the server identity |
| `Handover.Takeover.Reconfigure` | internal/rpc/dhcp.go:46-75 | a change is refused exactly while a takeover is under way; one that is done is served and on disk; right after it the two allocators are apart exactly if the scopes are off, or the journal says activated and the legacy is not running; the invariant that keeps them apart holds exactly if a takeover was confirmed or the scopes are off |
| `Handover.Takeover.Run` | internal/addressbook/handover.go:263-508 | in every run of takeovers, confirmations, rollbacks, the daemon's own commands, recovery, crashes, boots and reboots the legacy allocator never runs while ghostd has a scope on, no scope is on unless the journal durably says activated, and an activated takeover stays owed to the legacy |
| `ClassSets.Intersect` | internal/mdns/reflect.go:223-239 | composing two rules allows exactly the classes both allow, "every class" ranging over all strings |
| `ClassSets.Union` | internal/mdns/reflect.go:241-254 | two paths to a pair allow exactly what either allows |
| `ClassSets.ClassesOfClean` | internal/mdns/reflect.go:209-219 | a rule's classes are lower-case and never the wildcard |
| `Relays.WalkAvoidingSource` | internal/mdns/reflect.go:298-301 | a walk that returns to its source adds nothing over one that does not |
| `Relays.RankDrops` | internal/mdns/reflect.go:311-323 | replacing a node's classes by a strict improvement lowers how often they can still be replaced |
| `Relays.PotentialDrops` | internal/mdns/reflect.go:311-333 | so the worklist's measure drops with every improvement, on cyclic rules too |
| `Relays.Push` | internal/mdns/reflect.go:311-323 | a push merges exactly the given classes, queues the node only on strict improvement, and then lowers the measure |
| `Relays.PassOn` | internal/mdns/reflect.go:327-333 | handing on a node's classes settles every edge leaving it and stays within what walks justify |
| `Relays.WalkIsCarried` | internal/mdns/reflect.go:294-301 | a map closed under the edges carries every class of every walk |
| `Relays.Outward` | internal/mdns/reflect.go:308-333 | the worklist terminates with exactly the classes of the walks from its source |
| `Relays.FilterFor` | internal/mdns/reflect.go:102-118 | a pair's filter lets through exactly the classes its set allows |
| `Relays.PlanRelays` | internal/mdns/reflect.go:302-348 | a pair lets a class through exactly when source and destination differ and some walk of rules joins them with every rule allowing it; no pair twice, none to itself, none idle |
| `Names.UnescapeAppend` | internal/mdns/advertise.go:185-205 | text that starts with a dot and has no backslash keeps its meaning after any name, but for an open escape it closes |
| `Names.NeverLonger` | internal/mdns/nat.go:149 | undoing escapes never leaves a text short by exactly a plain ending |
| `Names.RoundTripsExactly` | internal/mdns/nat.go:515-537 | the key an instance is deleted under is the one it was filed under exactly for names ending in their class and `.local.` with a clean instance part |
| `Names.BackslashDisagrees` | internal/mdns/nat.go:417 | for an instance with a backslash the two keys differ |
| `Names.UpperCaseDisagrees` | internal/mdns/nat.go:515-519 | for a class announced in upper case too |
| `NatPorts.OwnerIdentifies` | internal/mdns/nat.go:202-207 | two owners are the same exactly when source and instance are |
| `NatPorts.PortsApart` | internal/mdns/nat.go:239-258 | two instances of a rule never share a port |
| `NatPorts.HoldsOn` | internal/mdns/nat.go:75-83 | what one source does in the shared pool leaves what another holds alone |
| `NatPorts.ProbeOnce` | internal/mdns/nat.go:246-255 | probing visits every port of the range exactly once |
| `NatPorts.FirstProbeAgain` | internal/mdns/nat.go:246-255 | the same owner asking again finds the same port |
| `NatPorts.GoodbyeExactly` | internal/mdns/nat.go:411-418 | a goodbye takes its instance out exactly for the names above |
| `NatPorts.MissedGoodbye` | internal/mdns/nat.go:258-270 | otherwise the port the instance owns is freed, and may go to any owner, while the instance stays published on it |
| `NatPorts.SweepMisses` | internal/mdns/nat.go:435-440 | likewise at a sweep: a lapsed instance filed under a key that names none is dropped and stays, and is dropped again at every later sweep |
| `NatPorts.SweptExactly` | internal/mdns/nat.go:430-447 | in a rule in order exactly the lapsed instances go |
| `NatPorts.NoNews` | internal/mdns/nat.go:326-381 | a record that is no news changes no mapping |
| `NatPorts.NoPortLeft` | internal/mdns/nat.go:239-258 | an instance left without a port found every port of its range in another's hands |
| `NatPorts.MapTarget` | internal/mdns/nat.go:280-296 | a target is an announced, mappable address on the source's own network |
| `NatPorts.NatRule.Allocate` | internal/mdns/nat.go:236-256 | the first port, probing from the hashed one, that belongs to no other owner; it fails exactly when every port of the range does |
| `NatPorts.NatRule.Release` | internal/mdns/nat.go:258-270 | a port is freed only by its owner |
| `NatPorts.NatRule.Drop` | internal/mdns/nat.go:411-418 | a withdrawn instance with a port is announced as gone, and what its own key names is deleted |
| `NatPorts.NatRule.Notify` | internal/mdns/nat.go:313-381 | one record leads to the specified instances and pool and reports exactly whether it was news; other sources' ports are untouched, and when its names agree a rule in order stays so |
| `NatPorts.NatRule.Place` | internal/mdns/nat.go:399-406 | in a rule in order an instance that moves always regains a port; a port is the first its owner may have |
| `NatPorts.NatRule.Publish` | internal/mdns/nat.go:386-408 | only where instances are mapped changes; in a rule in order every instance whose host is known is mapped to its target, or its range is full, and no change reported means no mapping changed |
| `NatPorts.NatRule.Learn` | internal/mdns/nat.go:298-409 | any message leads to the specified instances and hosts and leaves other sources' ports alone; when its names agree a rule in order stays so, and returning false implies the mappings are unchanged |
| `NatPorts.NatRule.Expire` | internal/mdns/nat.go:429-447 | lapsed instances are dropped, each deleting what its own key names, and those with a port are announced as gone; a change is reported exactly when one has lapsed; in a rule in order exactly the lapsed go |
| `NatPorts.NatRule.Sweeps` | internal/mdns/nat.go:429-447 | sweep after sweep a lapsed instance under a key that names none stays, is announced as gone again and is reported as a change again |
| `NatPorts.NatRule.Published` | internal/mdns/nat.go:449-462 | exactly the instances with a port, in key order, on different ports inside the range |
| `NatFabric.Fabric.constructor` | internal/mdns/nat.go:83 | with an empty pool every rule alone of its source is in order |
| `NatFabric.Fabric.OkExact` | internal/mdns/nat.go:75-83 | the invariant means: for the rules in good order the pool is exactly the port-to-owner map of the instances holding a port, all their ports differ, and the pool has nothing that is no rule's |
| `NatFabric.Fabric.Perform` | internal/mdns/nat.go:300-447 | one rule's step, whatever it is told, leaves the other good rules in order, and itself if its names agree |
| `NatFabric.Fabric.Run` | internal/mdns/nat.go:239-447 | in every reachable state of rules sharing a pool, whatever sources announce: for the rules alone of their source whose own names agreed the pool is exact and published ports are different and in range |
| `NatFabric.Fabric.SharedSource` | internal/mdns/nat.go:202-207 | two rules of one source and range that learn the same instance publish it on the same port, whenever there is a port at all |
| `NatFabric.PlanRules` | internal/mdns/service.go:175-238 | one rule for every pair of different interfaces a configured rule stands for; rules share a pool exactly when they publish on the same interface |
| `NatFabric.SourcesApart` | internal/mdns/service.go:206-235 | the rules on a pool have different sources exactly when no pair was named twice |
| `NatFabric.PairTwice` | internal/mdns/service.go:206-235 | two configured rules may stand for the same pair of interfaces |
| `NatFabric.PairClashes` | internal/mdns/service.go:206-235 | whose planned rules then publish an instance both learn on one port |
| `NatFabric.LostSilently` | internal/mdns/nat.go:399-406 | after a missed goodbye whose port another source took, a moved host leaves the instance unmapped while learning reports no change |
| `Configs.ValidClientFree` | internal/addressbook/config.go:332-352 | a valid client identity has no key separator |
| `Configs.ParseMacCanonical` | internal/addressbook/allocate.go:53-59 | what is read as a hardware address is canonical, and what is canonical reads as itself |
| `Configs.DisabledValid` | internal/addressbook/config.go:442-450 | a validated configuration stays valid with its scopes off |
| `Configs.DeviceIdLabel` | internal/addressbook/allocate.go:18-20 | a generated device name is a usable name |

## Left out

- Sockets, packet encoding, DHCP option handling, the CoreDHCP and CoreDNS wiring, gRPC, authorisation and the resolver: I/O over libraries outside this model. Handlers appear as the commands they issue.
- Rendering and parsing of nft rules: a firewall table is an opaque value, and restoring one replaces it exactly.
- The netconfig, DHCP and mDNS domains of the dead-man's switch: the firewall domain is modelled, whose restore is exact.
- `convert.go`, the matching of legacy dnsmasq directives and `Legacy.Validate`: whether a legacy configuration matches is a choice of the environment.
- TFTP, router advertisements, routes of delegated prefixes, probes, client evidence and the watchdog: a confirmation takes whether everything was verified as a parameter.
- The upgrade backfill of the indexes (`backfillIndexes`, store.go:100-146): the index claims start from a store built by `save`.
- SHA-256, JSON and UUIDs: a digest is a function to 64 hex digits, records are values, lease identifiers are fresh.
- Address parsing: a configuration carries the parser, on texts without an IPv6 zone, as a function; what is assumed of it is that it accepts no text with a separator, that the text it prints is short and reads back as the same address, and that a subnet contains addresses of its own family only.
- Lower-casing is that of ASCII; the source also folds other letters of UTF-8 names.
- Allocation.Allocate: the pool is the sequence of its address texts; that `Next` enumerates them in numeric order is not part of this model.
- History.Snapshot: returns the bindings as a set; the order, the observations, nodes and device lists of a snapshot are not modelled.
- Handover.Takeover.Rollback: is one sequence with respect to other ledger transactions; with its scopes off ghostd grants nothing meanwhile, but an operator's own import could interleave.
- Handover.Takeover.Boot: observation-only and standby modes are left out.
- NatPorts.NatRule.Allocate: the FNV hash is an arbitrary function; the result is proved for any starting port.
- NatFabric.PlanRules: covers the NAT rules and their pools; the resolution of patterns to interfaces and the relay edges come in resolved.
- Replication.ApplyReplicated: the nodes of the leader's snapshot and the observation events are not modelled; the bindings, the server identity and the associations are.
- Replication.Follower.SyncOnce: the mirrored configuration file is not modelled.
- Import.ImportDocument: of a DUID it is checked that it is an even number of hex digits and has a type code; the structure of each type is not part of this model. An IPv6 lease's hardware address of another length than six octets is dropped.
- Identity.Report: the record of the reporting node itself is not modelled.
- Handover.Takeover.Run: before a confirmed takeover ordinary configuration changes leave the scopes off; `Handover.Takeover.Reconfigure` says what one that does not breaks.
- NatPorts.NatRule.Learn: answer construction, announcements and TTL clamping are left out.
- NatFabric.Fabric.Run: a rule counts as alone of its source only if no source interface has a `|` in its name.
- LeaseFile.ExportParsesBack: assumes what a validated configuration and `save` provide for live bindings, and that no client uses the quarantine identity.
- Ledger.Store.Run: exportability is kept for clients whose `mac:` identity is their own hardware address and none of which uses the quarantine identity, for canonical texts in reservations, requests and imports, and until the clock nears the end of 64-bit time.
- Ledger.Store.RunNumbers: of leases, imports and quarantines; a sighting is not a holding.
- Replication.Follower.Promote: the mirrored configuration, the test whether the leader still answers and a failing apply are left out.
- Locking: the store lock and the mutexes make each operation one step.
