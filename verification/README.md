# certguard: a verified model

certguard tracks TLS certificates and domain registrations, stores a secret beside each entry,
alerts before things expire, and shows it all on a dashboard whose cards the user arranges. This
project models the parts of it that carry real algorithms or protocols and proves, for every input
and every run, what those parts are relied on for. `dafny verify dfyconfig.toml` checks everything.

Where the original updates things in place, there is a class or an array method here that does the
same, and its contract equates the new state with a function of the old one; what the program
promises is then proved about those functions.

**Dashboard grid** (`Grid`, `Skyline`, `PushDown`, `Landing`, `Tidy`, `Session`, `Drops`, `Opening`, `Widgets`,
`Pixels`). Cards own
rectangles on four columns. Proved: a drop disturbs only what it must, whether or not the pass guard
runs out, sets every pushed card down flush on a pile of others, and leaves no overlap at all when the
last pass was quiet; a drop on free space or on one card with room below it moves nothing or just that
card; Tidy yields the least layout
among all that keep the vertical order, and a second Tidy changes nothing; a migrated masonry layout
takes the cards in its saved order and puts each in the leftmost window of minimal top; saving and re-opening restores every rectangle
and the hidden set, a layout of rectangles from anywhere opens without overlaps exactly when the
clamped rectangles of the cards it shows are apart, and the shipped ones are; over any run of actions (drops ending in a quiet pass) visible cards stay placed,
apart and inside the grid; pixel boxes of disjoint rectangles stay at least 19 pixels apart, a bound
that is reached, and the pixel-to-cell map inverts the cell-to-pixel map with half a cell of slack.

**Secret vault** (`Secret`, `Vault`, `VaultService`). Auto, passphrase and zero-knowledge modes over
memory, meta rows, a key file and restarts. Proved: in every reachable state outside zero-knowledge
mode all stored values are sealed under the one data key the persisted keyring wraps; a new passphrase is accepted exactly when the guards say so, exactly the
latest passphrase unlocks a passphrase vault; a restart alone unlocks exactly an auto vault; no run
of passphrase changes, locks and restarts loses a secret; a locked vault refuses reads, writes and
passphrase changes, and the operations that do act on it are listed exactly: leaving zero-knowledge
mode, for one, opens it and blanks every secret even if the mode was not on; once zero-knowledge mode
is on, no server started from then on holds a key or reveals a plaintext until the mode is left.

**Zero-knowledge keyring** (`ZeroKnowledge`, `VaultPage`). The browser's data key, the passphrase
keyring and the security-key wrappers. Proved: in any run with one browser session all of them lead
to one data key, so a secret encrypted before any number of rotations opens by the latest passphrase
and by every paired key, and by nothing else; a new keyring keeps paired keys working exactly when it
wraps the key in use; switching the mode on carries a stored secret over exactly when the server
vault is unlocked at that moment.

**Alert escalation** (`Expiry`, `Escalation`, `Scheduler`). Two counters per entry, driven by the
clock, failing channels and rescans. Proved: between two resets the marks strictly decrease, at most
three per counter, for any clock and any failures; with a channel that listens, alerts are exactly
the new lows of the bucket, for any clock, and with a forward clock exactly one per distinct bucket
met, for the leaf and for the chain; unchanged rescans are invisible; leaf and chain never influence each other.

**Windowed stores** (`RateLimiter`, `RdapCache`, `Ceremonies`). Each refines a store that never
forgets. The limiter filters a slice in place over its own backing array.

**Bounded fan-out** (`FanOut`). Interleaved goroutine steps with a semaphore of six, a wait group and
one slot per name: safety, liveness, and a result that no schedule influences.

**One-time passwords** (`Totp`) and **CSV export** (`Csv`): a replay floor with an arithmetic bound on
logins (section 5.2 of RFC 6238, section 5.3 of RFC 4226), and a writer undone by a reader for the
grammar of section 2 of RFC 4180.

## What turned out otherwise than expected

- A domain whose registry date carries a fraction of a second is alerted on at every refresh: the row
  keeps whole seconds, the comparison uses the raw date (`internal/store/store.go:233-242`), so the
  unchanged date always looks like a renewal. `Escalation.SameDateRearmsIffFractional` and
  `Escalation.RefreshedDomainAlerts` give the exact condition. The comment beside the code speaks
  only of renewals.
- Turning zero-knowledge mode on while the server vault is locked drops every stored secret: the page
  skips what it cannot read (`internal/server/web/static/settings.js:199-204`) and the server then
  drops its key. `ZeroKnowledge.EnableCarriesOverIffUnlocked` gives the exact condition.
- The comment at `internal/store/webauthn.go:147-149` says wrappers are cleared when the passphrase
  changes; the code clears them only when the mode is switched on or off, and the model follows the
  code.
- A CSV file whose last record is a single empty cell cannot be told from one with a closing line
  break. `Csv.RoundTrip` states the round trip with exactly that exception; an export, whose records
  have eleven cells, never meets it (`Csv.ExportCsv`).

## Modelling choices

Cryptography is symbolic: what is wrapped or sealed under a key opens under that key only, and
different derivation inputs give different keys. Randomness, clocks, scan results, channel behaviour
and a card's content height (`fit`) are parameters. Writes succeed; each handler, pass, upsert and
store call is one atomic step. Times are integers in nanoseconds, and Go's saturating `Time.Sub` and
its conversions that drop fractions are written out. The key file is the only operator key. The CSV
reader is wider than the TEXTDATA of section 2 of RFC 4180: an unquoted field may hold anything but
a quote, a comma, CR or LF, and a byte-order mark is skipped.

## Model

| member | source | states |
|---|---|---|
| Grid.RectOf | internal/server/web/static/widgets.js:48-56 | whatever the dataset holds, or lacks, the rectangle read back lies in the four columns, at row 0 or below, at least 5 rows high |
| Grid.SetRectReadsBack | internal/server/web/static/widgets.js:52-67 | a rectangle written to a card is read back unchanged if and only if it fits the grid; writing what was read changes nothing |
| Grid.OverlapIsSharedCell | internal/server/web/static/widgets.js:69-70 | the comparison of edges holds exactly when the two rectangles have a cell in common |
| Grid.ReadsClosest | internal/server/web/static/widgets.js:23-56 | each attribute, or its default, is brought into the grid by as little as possible; a missing or zero span reads as four |
| Grid.WritesClosest | internal/server/web/static/widgets.js:59-67 | the rectangle written is the closest one in the grid, the span follows the width, and nothing else changes |
| Skyline.RestIsBelow | internal/server/web/static/widgets.js:266-267 | the running-bottom maximum over a card's columns is at or below the bottom of every card sharing a column with it |
| Skyline.RestIsLeast | internal/server/web/static/widgets.js:266-267 | ... and no row from 0 on that clears them all is less |
| Skyline.RestingStacks | internal/server/web/static/widgets.js:256-259 | cards each resting on the ones before are stacked in that order in every column |
| Skyline.RestingIsLeast | internal/server/web/static/widgets.js:250-259 | of all stackings of the same footprints in the same order, resting has every card highest |
| Skyline.BestIsLeftmost | internal/server/web/static/widgets.js:230-234 | the window the search keeps has the least top of all windows, and every window to its left is strictly lower |
| Skyline.FlowIsLeftmostMinimal | internal/server/web/static/widgets.js:221-238 | in the flowed layout every card sits in the leftmost window of minimal top over the cards before it |
| Skyline.FlowRests | internal/server/web/static/widgets.js:224-237 | every flowed card is in the grid and rests on the ones before it |
| PushDown.DropIsLocal | internal/server/web/static/widgets.js:72-94 | after any number of passes, exhausted guard or not: the dropped card has not moved and nothing overlaps it; the others keep column and size and only sink; a card clear of the drop that ends no lower than it has not moved |
| PushDown.QuietMeansApart | internal/server/web/static/widgets.js:81-92 | from any layout at all, if the last pass pushed nothing then no two cards overlap |
| PushDown.PassesLower | internal/server/web/static/widgets.js:72-74 | pushing never raises a card or changes its shape |
| Landing.CardsLandOnPiles | internal/server/web/static/widgets.js:84-91 | after any passes from any layout each card's row is where some card was plus the heights of a pile from that one up to it, neighbours in the pile sharing a column |
| Landing.RowAt | internal/server/web/static/widgets.js:85-90 | one pusher's round sets each card it overlaps, the dropped one excepted, exactly on its bottom edge and moves no other, in whatever order the targets come |
| Landing.DropOnOne | internal/server/web/static/widgets.js:75-92 | if only one card is in the way and has room below, it ends on the bottom edge of the drop, no other moves, and the run is quiet |
| Landing.FreeDrop | internal/server/web/static/widgets.js:75-92 | where nothing overlaps the first pass is quiet and nothing moves |
| Landing.PassesAreSweeps | internal/server/web/static/widgets.js:79-82 | stopping at the first quiet pass gives what all the passes the guard allows would, and the run ends quiet exactly when one of those changes nothing |
| PushDown.VisitAll | internal/server/web/static/widgets.js:85-90 | the inner loop over the shared rectangles, in place; it reports a push exactly when the layout changed |
| PushDown.Pass | internal/server/web/static/widgets.js:82-91 | one pass of all pushers in place, with `again` set exactly when the layout changed |
| PushDown.Resolve | internal/server/web/static/widgets.js:79-92 | the guarded loop computes the passes up to the first quiet one or the end of the guard, and says which it was |
| Tidy.SortSorts | internal/server/web/static/widgets.js:261-262 | cards are taken in the one stable order by row, then column |
| Tidy.OrderIsShown | internal/server/web/static/widgets.js:261-262 | each shown and placed card is taken exactly once, and no other |
| Tidy.TidySeparates | internal/server/web/static/widgets.js:260-273 | Tidy keeps every footprint and leaves no overlap, even if there was one before |
| Tidy.TidyIsLeast | internal/server/web/static/widgets.js:250-273 | from a layout without overlaps, no layout of the same footprints without overlaps that keeps the vertical order of column-sharing cards has any card higher than Tidy puts it |
| Tidy.TidyIsCandidate | internal/server/web/static/widgets.js:250-273 | the tidied layout is one of those layouts, and no card is lower than it was |
| Tidy.TidyIsIdempotent | internal/server/web/static/widgets.js:260-273 | a second Tidy changes nothing, from whatever layout the first one started |
| Session.DropStaysLocal | internal/server/web/static/widgets.js:72-94 | a drop on the dashboard, for every other card: hidden ones untouched, visible ones clear of the dropped card, same shape, not higher, and unmoved when clear of the drop and ending no lower |
| Session.QuietDropSeparates | internal/server/web/static/widgets.js:75-94 | after a drop whose last pass was quiet no two of the visible cards and the dropped one overlap |
| Session.QuietDropSettles | internal/server/web/static/widgets.js:737-742 | such a drop keeps every visible card placed and apart from the others |
| Drops.ResolveLandsOnPiles | internal/server/web/static/widgets.js:75-93 | the same of the cards on the dashboard: every other visible card ends flush on a pile, or where it was |
| Drops.QuietWithinGuard | internal/server/web/static/widgets.js:79-82 | with n other visible cards a drop ends quiet exactly when one of the first 4n + 20 passes changes nothing |
| Drops.DropOnFreeSpace | internal/server/web/static/widgets.js:737-742 | a card dropped where no visible card is moves nothing else |
| Drops.DropOnOneCard | internal/server/web/static/widgets.js:737-742 | a card dropped on just one other with room below sets that one on its bottom edge and moves nothing else |
| Drops.HideThenShow | internal/server/web/static/widgets.js:275-285 | a card hidden and shown again with nothing in between leaves the very same grid |
| Drops.ShowKeepsFreeSpot | internal/server/web/static/widgets.js:281-289 | showing changes that card only, and keeps its spot if and only if it has one that no shown card overlaps |
| Session.ShowSettles | internal/server/web/static/widgets.js:275-289 | a shown card overlaps nothing; it keeps its stored spot when that is free |
| Session.ReshownGoesBelow | internal/server/web/static/widgets.js:282-288 | otherwise it lands in the first column on exactly the first row that clears all other shown cards, at its content's height |
| Session.AllPlacedSettles | internal/server/web/static/widgets.js:240-247 | cards without a place get one clear of everything; no placed or hidden card is touched |
| Session.NewCardsStack | internal/server/web/static/widgets.js:240-247 | new cards stack without gaps in the first column, in page order, from the given row on |
| Drops.NewCardsStartBelow | internal/server/web/static/widgets.js:240-247 | the stack of new cards starts on the first row that clears every shown card, each card at its own span and content height |
| Session.MigrateSeparates | internal/server/web/static/widgets.js:221-238 | on a fresh page a masonry layout places exactly the cards its order names, without overlaps, even if it names one twice |
| Opening.OrderFollowsSaved | internal/server/web/static/widgets.js:222-225 | the cards a masonry layout places are those its saved ids name, in that order, ids no longer on the page left out; without a saved order, all in page order |
| Opening.OrderOfPage | internal/server/web/static/widgets.js:222 | without a saved order the k-th card taken is the k-th of the page |
| Opening.MigrationFollowsOrder | internal/server/web/static/widgets.js:221-238 | the card that the k-th known id names has its old size and sits in the leftmost window of minimal top over the cards the ids before it name |
| Opening.OldSizeKept | internal/server/web/static/widgets.js:226-228 | the old span brought into the grid, and the fewest rows from five on that hold the old height, or what the content needs |
| Opening.HiddenIffSaid | internal/server/web/static/widgets.js:208-213 | opened on anything, a card is hidden if and only if the layout hides it, or does not know it and the page ships it hidden |
| Opening.MigratedStays | internal/server/web/static/widgets.js:214-217 | a card the migration placed is not moved by the placing of others |
| Session.SaveApplyRestores | internal/server/web/static/widgets.js:177-219 | `save` then `apply` on a fresh page gives every saved card its rectangle and hidden flag back; cards the layout does not know find a place of their own |
| Session.FirstVisitSettles | internal/server/web/static/widgets.js:190-219 | a fresh page without a layout, or with a masonry one, ends with every visible card placed and apart |
| Session.LayoutGives | internal/server/web/static/widgets.js:195-213 | a card that a layout of rectangles knows gets its clamped rectangle and its hidden flag, overlaps or not |
| Session.LayoutSettlesIffApart | internal/server/web/static/widgets.js:190-219 | a fresh page opened on any layout of rectangles ends with every visible card placed and apart if and only if the clamped rectangles of the cards it shows are apart |
| Session.ShippedLayoutSettles | internal/server/web/static/dashboard.js:1317-1340 | the arrangements shipped for administrators and viewers do so, whatever cards the page has |
| Session.TidySettles | internal/server/web/static/widgets.js:260-273 | Tidy keeps every visible card placed and apart |
| Session.SessionStaysSettled | internal/server/web/static/widgets.js:75-94 | over any run of hide, show, tidy, quiet drops and re-opened pages, visible cards stay placed, pairwise apart, within 4 columns, at row 0 or below, at least 5 rows high |
| Widgets.WindowTop | internal/server/web/static/widgets.js:266-267 | the maximum of the running bottoms over a window is where a card there rests on those already placed |
| Widgets.Raise | internal/server/web/static/widgets.js:269 | raising the bottoms of the card's columns keeps them equal to the tops of the placed cards |
| Widgets.Window | internal/server/web/static/widgets.js:230-234 | the search over the bottoms array finds the leftmost window of minimal top |
| Widgets.WidgetGrid.Place | internal/server/web/static/widgets.js:737-742 | setting the rectangle and resolving is the drop specified in Session, and tells whether it ended quiet |
| Widgets.WidgetGrid.Resolve | internal/server/web/static/widgets.js:75-94 | the rectangles of the visible cards are pushed in place and written back, the dropped card excepted |
| Widgets.WidgetGrid.RestOne | internal/server/web/static/widgets.js:264-270 | one round: the card's row becomes its resting row and the bottoms follow |
| Widgets.WidgetGrid.Compact | internal/server/web/static/widgets.js:260-273 | the loop over running bottoms computes the layout Tidy's theorems are about |
| Widgets.WidgetGrid.PlaceIntoFreeSpace | internal/server/web/static/widgets.js:281-289 | keeps the spot unless unplaced or clashing, else drops the card below all others |
| Widgets.WidgetGrid.SetHidden | internal/server/web/static/widgets.js:743-754 | hiding only sets the flag; showing also places |
| Widgets.WidgetGrid.PlaceUnplaced | internal/server/web/static/widgets.js:240-247 | the loop with its moving bottom places exactly the visible cards without a position |
| Widgets.WidgetGrid.Save | internal/server/web/static/widgets.js:177-185 | every card's rectangle and the ids of the hidden ones |
| Widgets.WidgetGrid.FlowOne | internal/server/web/static/widgets.js:230-236 | one round: the card goes to the chosen window and the bottoms follow |
| Widgets.WidgetGrid.Migrate | internal/server/web/static/widgets.js:221-238 | the loop over bottoms computes the flow, although it rewrites the widths it reads |
| Widgets.WidgetGrid.Apply | internal/server/web/static/widgets.js:190-219 | positions or migration, then visibility, then unplaced cards, in that order |
| Pixels.LayoutKeepsApart | internal/server/web/static/widgets.js:132-141 | on a container at least 640 px wide, rectangles that do not overlap become boxes 19 px apart sideways or 20 px apart vertically, rounding included |
| Pixels.BoxIsWhereItShould | internal/server/web/static/widgets.js:132-138 | rows are exact, left edges within half a pixel and right edges within one of an even division of the container, and a card across all columns exactly fills it |
| Pixels.NineteenIsReached | internal/server/web/static/widgets.js:132-141 | the sideways bound is tight |
| Pixels.CellAtInverts | internal/server/web/static/widgets.js:495-501 | a card let go within half a cell of its own pixel corner goes back to its own cell |
| Pixels.CellAtIsClosest | internal/server/web/static/widgets.js:495-501 | wherever the corner is held, the cell is in the grid and no column or row the card fits in is closer |
| Vault.StepKeepsInv | internal/server/vault.go:141-288 | every operation, accepted or refused, keeps memory, meta rows, key file and ciphertexts in agreement, for the passphrase then in force |
| Vault.RunsStaySound | internal/server/vault.go:48-101 | from any installation, over any run, every state outside zero-knowledge mode has all ciphertexts under the one data key the persisted keyring wraps |
| Vault.LatestPassphraseUnlocks | internal/server/vault.go:141-213 | a locked passphrase vault opens for exactly the latest passphrase, has no key file, and then reveals every stored secret |
| Vault.RestartUnlocksOnlyAuto | internal/server/vault.go:57-76 | a restart alone opens the vault exactly in auto mode, and then reveals every stored secret |
| Vault.UnlockedIff | internal/server/vault.go:141-159 | unlocking succeeds if and only if the vault is open already or gets the passphrase in force, names the reason otherwise, and changes nothing but the box |
| Vault.ChangeAcceptedIff | internal/server/vault.go:170-213 | a passphrase change is accepted if and only if the vault is open, the new one is empty or has eight characters, and the current one is right where one is being replaced; accepted it is in force at once, refused nothing changes |
| Vault.StepLeavesAlone | internal/server/vault.go:161-213 | locks, unlocks, passphrase changes and restarts change neither another row's ciphertext nor the data key |
| Vault.SecretsSurvive | internal/server/vault.go:168-213 | after any run of those a stored secret is revealed as stored whenever the vault is open, and refused as locked otherwise |
| Vault.LockedVaultRefuses | internal/server/vault.go:161-175 | a locked vault reveals nothing, stores nothing, accepts no new passphrase, and opens only for the passphrase in force |
| Vault.LockedVaultYieldsTo | internal/server/vault.go:141-270 | a locked vault is opened exactly by the passphrase in force, a restart in auto mode, or the keyring delete request, which blanks every secret; its disk changes only for the two keyring requests and for entries coming and going, and a keyring set request rewrites exactly the secrets it carries |
| Vault.StoredIsRevealed | internal/server/server.go:488-577 | a write is accepted exactly when the entry is active and the vault open or in zero-knowledge mode; it then reads back - the value, the ciphertext, or nothing for an empty one - and touches that ciphertext only |
| Vault.LastSecretWins | internal/server/security.go:139-142 | of several ciphertexts sent for one entry the last stays; inactive and unnamed entries keep theirs |
| Vault.ServerGoesBlind | internal/server/vault.go:219-235 | switching on leaves no server key on disk, so a server started from then on holds none and hands out only ciphertexts, over any run that does not leave the mode |
| Vault.LeavingBlanks | internal/server/vault.go:246-270 | leaving keeps every entry, blanks its secret, drops every wrapper and leaves an open auto vault |
| VaultService.Store.LoadOrCreateKey | internal/secret/secret.go:169-184 | the stored material if there is any, else fresh material that is then stored |
| VaultService.Store.SetSecret | internal/store/store.go:329-338 | writes an active entry's ciphertext, reports a missing or inactive one |
| VaultService.Service.constructor | internal/server/vault.go:48-101 | start-up from what is on disk: zero-knowledge, keyring, or first-run bootstrap |
| VaultService.Service.Unlock | internal/server/vault.go:141-159 | the unlock transition with its three refusals |
| VaultService.Service.SetPassphrase | internal/server/vault.go:170-213 | the passphrase transition: proof of the current one, re-wrap, key file made or removed |
| VaultService.Service.EnableZK | internal/server/vault.go:219-235 | the browser's keyring replaces the server's, key file removed |
| VaultService.Service.DisableZK | internal/server/vault.go:246-270 | all secrets blanked, a new auto keyring |
| VaultService.Service.Persist | internal/server/vault.go:272-288 | three rows written, then the fields |
| VaultService.Service.HandleSetSecret | internal/server/server.go:488-538 | plaintext sealed, or in zero-knowledge mode the browser's ciphertext stored as it is |
| VaultService.Service.HandleRevealSecret | internal/server/server.go:542-577 | plaintext, ciphertext in zero-knowledge mode, or the reason for refusal |
| VaultService.Service.HandleKeyringSet | internal/server/security.go:111-144 | the mode switched or the keyring rotated, wrappers dropped only in the first case, migrated ciphertexts stored in turn |
| VaultService.Service.HandleKeyringDelete | internal/server/security.go:149-158 | the mode left, wrappers dropped |
| ZeroKnowledge.EnableKeepsOneKey | internal/server/security.go:121-139 | switching on leaves one data key and no wrapper of an older one |
| ZeroKnowledge.RotateKeepsRing | internal/server/web/static/settings.js:226-244 | a rotation with a long enough passphrase, from an unlocked page or with the passphrase in force, makes the new passphrase and no other open the keyring to the very key in use; any other attempt changes nothing at all |
| ZeroKnowledge.PairKeepsOneKey | internal/server/web/static/settings.js:400-452 | a paired key's wrapper holds the keyring's data key |
| ZeroKnowledge.PairedKeyOpens | internal/server/web/static/settings.js:400-452 | from an unlocked page in the mode, that key opens the vault afterwards and no other wrapper changes; otherwise nothing happens |
| ZeroKnowledge.UnpairedKeyDoesNot | internal/server/web/static/settings.js:454-464 | that key no longer opens the vault, and no other wrapper changes |
| ZeroKnowledge.DisableLeavesNothing | internal/server/web/static/settings.js:246-254 | no key, no wrapper and no secret is left, every entry is, and the server vault is open in auto mode |
| ZeroKnowledge.PageStores | internal/server/web/static/dashboard.js:745-769 | what the page stores it can show again, an empty value shows nothing, and a locked page or server stores nothing |
| ZeroKnowledge.StepKeepsOneKey | internal/server/web/static/zk.js:31-83 | every operation keeps all doors on one data key, and no operation but switching off changes it |
| ZeroKnowledge.RunsKeepOneKey | internal/server/web/static/zk.js:31-97 | over any run, every wrapper and the keyring under the latest passphrase unwrap to the same data key; outside the mode there are no wrappers |
| ZeroKnowledge.RotationMustKeepTheKey | internal/server/security.go:121-139 | a keyring from elsewhere leaves a paired key working if and only if it wraps the data key already in use |
| ZeroKnowledge.SecretOutlivesRotation | internal/server/web/static/zk.js:38-97 | a secret encrypted before any run decrypts after locking or reloading the page, by the latest passphrase and by every paired key, and by no other passphrase or key |
| ZeroKnowledge.ReadableIs | internal/server/web/static/settings.js:198-204 | what the page collects before the switch is exactly the stored plaintexts of the listed entries, or nothing from a locked vault |
| ZeroKnowledge.MigratedRow | internal/server/security.go:139-142 | a listed active row gets its own new ciphertext, any other keeps the old one |
| ZeroKnowledge.EnableCarriesOverIffUnlocked | internal/server/web/static/settings.js:186-222 | after switching on, a stored secret decrypts if and only if the server vault was unlocked at the switch |
| VaultPage.Keyholder.Create | internal/server/web/static/zk.js:31-36 | a new data key, and a keyring that wraps it |
| VaultPage.Keyholder.Unlock | internal/server/web/static/zk.js:39-47 | the held key changes only if the passphrase opens the keyring |
| VaultPage.Keyholder.Rewrap | internal/server/web/static/zk.js:50-54 | only with a key in hand; the new keyring opens to that key under the new passphrase |
| VaultPage.Keyholder.WrapForKey | internal/server/web/static/zk.js:72-75 | only with a key in hand; opens to that key under the security key's secret and under no other |
| VaultPage.Keyholder.UnlockWithKey | internal/server/web/static/zk.js:77-83 | the held key changes only if the security key's secret opens the wrapper |
| VaultPage.Page.Read | internal/server/web/static/settings.js:198-204 | the loop collects what the server gives up, skipping refusals and empty values |
| VaultPage.Page.EnableZK | internal/server/web/static/settings.js:186-222 | read, create, encrypt, post: the switch-on step |
| VaultPage.Page.ChangeZK | internal/server/web/static/settings.js:226-244 | the rotation step, unlocking first if needed |
| VaultPage.Page.DisableZK | internal/server/web/static/settings.js:246-254 | the switch-off step |
| VaultPage.Page.PairKey | internal/server/web/static/settings.js:400-452 | the pairing step, refused outside the mode and with a locked page |
| VaultPage.Page.UnpairKey | internal/server/web/static/settings.js:454-464 | exactly that wrapper goes |
| VaultPage.Page.Enter | internal/server/web/static/vault-ui.js:48-153 | the unlock step by passphrase or by security key |
| VaultPage.Page.StoreSecret | internal/server/web/static/dashboard.js:745-769 | plaintext outside the mode, own ciphertext inside it, nothing from a locked page |
| Expiry.BucketIsLeastRung | internal/notify/threshold.go:26-59 | the bucket is the least rung of the entry's ladder that the remaining whole days do not exceed, quiet when there is none |
| Expiry.DaysAreTruncated | internal/model/model.go:92-94 | days remaining are whole days, the fraction dropped towards zero on either side of the expiry |
| Expiry.BucketsTighten | internal/model/model.go:92-94 | as time passes a fixed expiry never becomes less urgent |
| Expiry.ChainRisk | internal/model/model.go:113-129 | the first among the soonest links that expire before the certificate, and none exactly if no link does |
| Expiry.RiskIsSoonestBefore | internal/model/model.go:113-129 | there is a risk exactly when some link with a date gives out before the certificate, or at all if that has none, and the soonest such link is reported |
| Expiry.FindChainRisk | internal/model/model.go:113-129 | the loop with its two running variables finds it |
| Escalation.NextRung | internal/notify/threshold.go:71-84 | an alert's threshold extends a strictly decreasing run of rungs |
| Escalation.StepEscalates | internal/scheduler/scheduler.go:221-252 | a pass, a rescan or a refresh keeps both counters at the last mark of a strictly decreasing run |
| Escalation.EscalationNeverRepeats | internal/notify/threshold.go:64-111 | for any clock and any failures, marks between two resets strictly decrease: at most three leaf and three chain marks |
| Escalation.UnchangedRescansAreInvisible | internal/store/store.go:165-191 | any number of rescans that find the same certificate and chain leave the entry as it was |
| Escalation.RescanTakesOver | internal/store/store.go:165-195 | after a rescan the leaf alert goes by the expiry just found, from scratch if the fingerprint is new and against the old mark if not; the same rescan again changes nothing |
| Escalation.RescanTakesOverChain | internal/store/store.go:172-191 | the chain alert goes by the chain and expiry just found, from scratch if the chain is new |
| Escalation.NewChainAlertsAlike | internal/store/store.go:172-191 | what a new chain alerts depends on that chain and the expiry found with it only |
| Escalation.RenewalTakesOver | internal/store/store.go:230-249 | the same of a registration, compared by date, with chain and chain counter untouched |
| Escalation.SameDateRearmsIffFractional | internal/store/store.go:230-245 | reading the same registry date again re-arms the alert exactly when the date has a fraction of a second |
| Escalation.RefreshedDomainAlerts | internal/scheduler/scheduler.go:181-201 | a domain refreshed before every pass of a forward clock, its date unchanged, is alerted on once per distinct bucket met for a whole-second date, and at every pass inside the ladder for a fractional one |
| Escalation.AlertsAreNewLows | internal/scheduler/scheduler.go:207-254 | for any clock, with a channel that listens, leaf and chain alerts are each exactly the new lows of their bucket since the reset |
| Escalation.RunTightens | internal/notify/threshold.go:26-51 | with a forward clock the buckets met between two resets never become less urgent |
| Escalation.OneAlertPerBucket | internal/scheduler/scheduler.go:207-234 | with a forward clock and a channel that listens, leaf alerts since the reset number the distinct non-quiet buckets met, one each, ever more urgent |
| Escalation.RiskIsSoonest | internal/model/model.go:113-139 | a chain's bucket is that of its soonest link if any link gives out before the certificate, and quiet if none does |
| Escalation.SoonestIsMostUrgent | internal/model/model.go:113-139 | ... and the soonest link's bucket is the most urgent of all links' |
| Escalation.OneChainAlertPerBucket | internal/scheduler/scheduler.go:235-251 | the same exact count for chain alerts, across any rotations of the certificate above an unchanged chain |
| Escalation.ChainNeverAffectsLeaf | internal/scheduler/scheduler.go:221-252 | runs that differ only in chain data and chain counters send the same leaf alerts, over the whole run |
| Escalation.LeafNeverAffectsChain | internal/scheduler/scheduler.go:235-252 | leaf counters, fingerprints and the fate of leaf alerts never affect chain alerts, over the whole run |
| Escalation.DeliveredIsCount | internal/scheduler/scheduler.go:259-272 | deliveries number the channels that subscribe to the threshold and accept the alert |
| Scheduler.Deliver | internal/scheduler/scheduler.go:259-272 | counts the channels that want the alert and accept it; a failing one does not stop the rest |
| Scheduler.Inventory.NotifyEntry | internal/scheduler/scheduler.go:222-251 | leaf and chain decided from the entry as listed, each counter, and nothing else, moved only on delivery |
| Scheduler.Inventory.NotifyPass | internal/scheduler/scheduler.go:207-254 | whatever the listing order, each active entry moves by one step, others not at all, and the count is the deliveries made |
| Scheduler.Inventory.UpsertScan | internal/store/store.go:155-215 | an existing entry takes the scan and resets each counter by its own rule, else a new entry starts unmarked |
| Scheduler.Inventory.UpsertDomain | internal/store/store.go:222-271 | likewise for a registration, compared by date |
| RateLimiter.NothingLiveIsLost | internal/server/middleware.go:68-73 | pruning loses no acceptance that a later question could still count |
| RateLimiter.LiveCounts | internal/server/middleware.go:68-73 | filtering keeps exactly as many times as lie strictly after the cutoff, and only such |
| RateLimiter.RefinesFullHistory | internal/server/middleware.go:64-80 | with a forward clock, accepts exactly when fewer than `max` earlier acceptances for the key lie strictly after now - window |
| RateLimiter.AcceptedIsHistory | internal/server/middleware.go:64-80 | over any run with a forward clock the limiter says yes to the very calls that one which forgets nothing would |
| RateLimiter.NoWindowOverflows | internal/server/middleware.go:64-80 | no half-open window of that length holds more than `max` of the limiter's own acceptances |
| RateLimiter.Limiter.KeepLive | internal/server/middleware.go:68-73 | filtering over the slice's own backing array keeps exactly the live times, in order |
| RateLimiter.Limiter.Append | internal/server/middleware.go:78 | one more time, in place or in a larger array |
| RateLimiter.Limiter.Allow | internal/server/middleware.go:64-80 | the decision and the new log for the key; every other key's log is unchanged although arrays are reused |
| RdapCache.EvictionIsInvisible | internal/server/rdapcache.go:47-78 | with a forward clock, same answers and same fetches as a cache that never evicts |
| RdapCache.HitIsLatestFetch | internal/server/rdapcache.go:54-61 | an unforced hit repeats the latest fetch for its key, made less than ttl ago |
| RdapCache.AskedIffStale | internal/server/rdapcache.go:54-66 | with a forward clock the registry is asked if and only if that is forced, or nothing was fetched for the key, or the latest fetch is ttl old |
| RdapCache.OverflowIsFresh | internal/server/rdapcache.go:67-75 | with more than 512 entries held, all were fresh when the registry was last asked |
| RdapCache.Cache.LookUp | internal/server/rdapcache.go:47-78 | one lookup, including cached failures, forced refreshes and hosts without a registrable domain |
| RdapCache.Cache.Sweep | internal/server/rdapcache.go:69-75 | deleting while ranging, with the clock read for each entry, removes exactly the entries stale when read, in any order |
| Ceremonies.TakeIsExact | internal/server/webauthn.go:53-77 | `take` answers with the latest put for its token, if nothing took or replaced it and it has not expired: the sweep changes no answer |
| Ceremonies.EachPutIsTakenOnce | internal/server/webauthn.go:66-77 | no two successful takes are answered by one put, and none after its expiry |
| Ceremonies.OnlyLiveAfterPut | internal/server/webauthn.go:53-64 | right after a put nothing else that is held has expired |
| Ceremonies.CeremonyStore.PutIn | internal/server/webauthn.go:53-64 | sweeps exactly the expired, then stores |
| Ceremonies.CeremonyStore.TakeOut | internal/server/webauthn.go:68-77 | removes the token whatever the answer |
| FanOut.StepOk | internal/coverage/coverage.go:35-60 | every step of every interleaving keeps the semaphore, the wait group and the slots consistent |
| FanOut.NeverStuck | internal/coverage/coverage.go:35-61 | until the check returns some step is enabled |
| FanOut.BoundedAndLive | internal/coverage/coverage.go:26-63 | at most six scans in flight, at most five steps a name, and never stuck, in every schedule |
| FanOut.ReturnsExpected | internal/coverage/coverage.go:26-63 | on return every slot was written once, for its own name, with a result no schedule influences |
| FanOut.ExpectedTells | internal/coverage/coverage.go:38-58 | a name is matched exactly when the certificate served there is the one checked, different when another is, unreachable when none is, and never connected to when it is a wildcard; what was served, or the error, comes with it |
| FanOut.Check | internal/coverage/coverage.go:26-63 | under any scheduler the check ends with the expected slots, each telling the truth about its own name |
| Totp.CodeValue | internal/twofa/twofa.go:78-96 | a code is six digits, zeros in front, of value the dynamically truncated number modulo a million |
| Totp.TruncatedIsBigEndian | internal/twofa/twofa.go:88-90 | the truncated number is the four bytes at the offset, big end first, without the top bit |
| Totp.RfcExample | internal/twofa/twofa.go:88-95 | the worked example of section 5.4 of RFC 4226 comes out as 872921 |
| Totp.StepIsHalfMinutes | internal/twofa/twofa.go:52-55 | from the epoch on the step counts whole half minutes, and it is that number that is hashed |
| Totp.Code | internal/twofa/twofa.go:78-96 | the loop that builds the modulus stays within 32 bits and the code is the specified one |
| Totp.ValidateStep | internal/twofa/twofa.go:47-60 | accepts the earliest matching step within one of the server's, refuses only if none of the three matches |
| Totp.StepsIncrease | internal/store/auth.go:119-127 | in any interleaving of logins accepted steps strictly increase |
| Totp.PassesIffNewest | internal/store/auth.go:114-127 | after any interleaving a login passes if and only if its step is later than the floor began and than every step accepted since |
| Totp.LoginsAreBounded | internal/server/server.go:251-259 | between two instants at most three more logins pass than steps have begun |
| Totp.User.ConsumeStep | internal/store/auth.go:119-127 | the conditional update: recorded exactly when later than the stored step |
| Totp.User.Login | internal/server/server.go:251-259 | passes only on a matching step near the clock and later than any spent; refuses only if the earliest match is spent or there is none |
| Csv.FeedDoubled | internal/server/web/static/inventory.js:387-390 | doubling the quotes is undone by reading inside quotes |
| Csv.FeedCell | internal/server/web/static/inventory.js:387-390 | a cell, quoted or not, reads back as the string it came from |
| Csv.FeedLines | internal/server/web/static/inventory.js:393-403 | joined lines read back as the records, the last still open |
| Csv.RoundTrip | internal/server/web/static/inventory.js:384-403 | for every matrix of strings the file reads back as the matrix if and only if it has a record, no record is empty, and the last of several is not a single empty cell |
| Csv.ExportCsv | internal/server/web/static/inventory.js:384-403 | nothing for no items, else a file that starts with a byte-order mark and reads back as the header and the items |

## Left out

- Sufficiency of the pass guard in `resolve`: the code does not settle it, so absence of all overlaps is stated for drops whose last pass was quiet.
- The single-column layout below 640 px, the document itself, pointer events, previews, and failing or malformed local storage; cards are looked up within the grid, not the whole document.
- `contentRows` and its cap: the height it returns is the arbitrary function `fit`.
- Floating-point rounding: pixel positions are exact reals, and whole days are truncated from exact nanoseconds.
- An environment master key: the key file is the only operator key, because leaving passphrase or zero-knowledge mode re-wraps under the key file while a restart prefers the environment value.
- Failing writes and crashes between the writes of `persist`, `enableZK` and `disableZK`.
- What the running process still holds after zero-knowledge mode is switched on (mode, salt and wrapped key stay in memory): nothing is claimed about it.
- Several browser sessions at once: `ZeroKnowledge.RotationMustKeepTheKey` says what one session must not do to another.
- The owner check on security-key wrappers, request decoding, HTTP status codes, secret hints, and the difference between Go's byte length and JavaScript's length of a passphrase.
- Trimming of the code typed in and of the key file, and the base32 padding of the TOTP secret; HMAC-SHA-1 is a function from counters to twenty bytes.
- Whether a WebAuthn login also passes: only the TOTP path is modelled.
- Rescans that interleave with a notify pass, failing counter updates, and the activity log.
- The textual threshold list of a channel: it is a set of numbers, or all.
- Scanning, RDAP over HTTP, mail, webhooks: their outcomes are parameters. `handleDomainCandidates` repeats the fan-out of `Check` with other slot contents.
- Concurrent lookups in the registry cache: calls are sequential, each with its own clock readings.
- Filtering, sorting and column formatting of the inventory: `ExportCsv` starts from the eleven strings of each visible item.
- Other parts of the program: certificate issuing, sessions and API tokens, the calendar, the status page, the command line and the database layer.
