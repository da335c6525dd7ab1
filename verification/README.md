# Parking system: what its programs keep

An STM32 board emits 12-byte GPS frames that open and close parking sessions. Two BeagleBone daemons
forward them to a C++ server, which keeps the sessions in an SQLite table and charges a fee at each close. A separate
program edits the hourly prices and tells the server by SIGHUP. This project models those programs in Dafny and
proves what they guarantee over whole runs, under every interleaving of their steps and every chunking of their bytes.

Run `dafny verify dfyconfig.toml` to check everything.

## The four parts

**The parking ledger** (`Rounding`, `Prices`, `PriceDb`, `Ledger`, `Server`, `Sessions`, `LedgerRefinement`,
`LedgerRuns`, `Money`, `Generator`, `Timestamp`). `Server.ParkingServer` mutates the session table frame by frame,
with each SQL statement as a scan over rows, coordinates as reals and the 0.0001 tolerance of the queries. The proof
goes down in two steps. Under the invariant `Ledger.Valid` (at most one open row per customer, city code and
coordinate in thousandths) every tolerance, `LIMIT 1` and `ORDER BY` disappears: the run is the run of an exactly
keyed table (`Sessions`). That table refines a map of open sessions and an append-only ticket log
(`LedgerRefinement`). Everything about whole runs is then proved on the exact table and brought back: conservation of
rows and money, final closed rows, repeats that do nothing, independence of keys, and what the generator's stream can
leave open.

**The price protocol** (`Printing`, `PriceProtocol`, `PriceSchedules`, `PriceSignals`, `PriceSources`, `PriceRuns`,
`PriceSegment`, `PricePrograms`, `ParkingSystem`). Four copies of the prices exist: the text file, shared memory, the
table and the server's cache. The updater's and the server's programs are split into the steps other programs can see,
and the theorems quantify over all interleavings and any number of server lives, with the updaters one at a time. The
file holds six significant digits of each price, as a C++ stream prints them. The programs themselves are methods of
`PricePrograms.Machine` over the file's text and the segment's bytes, proved to be runs of those steps.
`PriceSchedules` tells from the order of the steps alone what the last updater run leaves in each copy.
`ParkingSystem` runs cars and price updates together and shows that the ledger's theorems and the protocol's hold side
by side.

**Codecs and framing** (`Decimal`, `TextLines`, `PricesFile`, `Octets`, `SharedMemory`, `Framing`, `FramePath`,
`SinglePrecision`, `EndToEnd`, `FreeParking`). The price file is modelled character by character, shared memory and
frames byte by byte, the socket read turn by turn. `EndToEnd` composes the wire, the socket, the decoder and the
ledger: from the board's frames to the rows.

**Bit kernels** (`Words`, `BitKernels`, `Nvic`). A `uint32_t` is 32 booleans with the operators of C. The priority
split follows section B1.5.4 of the ARMv7-M Architecture Reference Manual.

`Arithmetic` and `Options` hold what several parts share.

## What turned out not to hold

- A price that needs more than six significant digits, such as 12345.67, is cut when it is written to the price file,
  but not in shared memory. The next reload puts the cut price into the table and the full one into the cache
  (`PriceRuns.RoundedPriceRun`). The four copies converge if and only if six digits are enough for the price the
  operator entered (`PriceSchedules.PricesConverge`).
- An updater's SIGHUP that lands while a reload is under way is absorbed: the reload clears the flag last. The server
  can then fall quiet charging one price while the table says another (`PriceRuns.StaleTableRun`). Only the last signal
  matters: if it finds the server serving, the copies agree up to the sixth digit whatever came before
  (`PriceSignals.LastSignalDecides`). For any
  order of the steps since the last write of the file, `PriceSchedules.UpsertSignalIff` and `RemovalSignalIff` say
  exactly when the charged prices are the table's.
- Shared memory outlives the server. A restart on shared memory that does not fit the table is quiet at once and
  charges what the table does not say, with no signal absorbed (`PriceRuns.StaleRestart`). `PriceSignals.StartDecides`
  says exactly when a start is harmless, and `PriceSignals.EveryQuietMomentIsDecided` that these conditions together
  cover every quiet moment.
- Seeding goes by places. A seeded code that was removed and given to another place is seeded again at the next start
  and is then in two rows; the file's last line wins, and the first reload changes the price of both
  (`PriceRuns.SeededTwice`).
- A comment in the client (`BeagleBone/tcp_client_demon/client.h:127`) takes the frame to be in network order already.
  The I2C daemon converts only the two 16-bit fields (`BeagleBone/i2c_demon/i2c_daemon.c:139-142`), while the server
  swaps all four. The model follows the code: each coordinate reaches the server with its four bytes reversed, so a
  frame arrives intact if and only if its coordinates' bytes are palindromes. Sessions are still opened and closed in
  pairs (`EndToEnd.BoardLeavesAtMostOne`), but no frame of the board finds its city, and over the seeded cities every
  stay is free (`FreeParking.BoardNeverPays`).
- The coordinate tolerance alone is not a notion of sameness (`Rounding.NearIsNotTransitive`); rounding to thousandths
  first is what makes it one.
- Three of the board's latitudes and five of its longitudes arrive as negative numbers (`EndToEnd.ArrivesNegative`).
- The two programs declare different sizes for one shared-memory segment: 84 prices fit the reader's declared size,
  while 170 fit the writer's (`SharedMemory.Publish`). Neither program checks the bound before it copies.
- The server's own INSERT of a new code names no city and is rejected by the schema, so a reload never adds a row
  (`Prices.MergeTheorem`).
- Frame alignment is lost for good once a read is abandoned half way: a signal in the middle of a frame drops the
  bytes already read (`Framing.AlignedIffNothingLost`).

## Model

| member | source | states |
|---|---|---|
| Rounding.Round3OnGrid | server/server.cpp:130-133 | Rounding to three decimals lands on a whole thousandth, keeps the nearest thousandth and moves a value by at most half of one. |
| Rounding.Round3Is | server/server.cpp:130-133 | The thousandth it lands on is the nearest, and of two equally near the one away from zero. |
| Rounding.RoundAbsorbsNoise | server/server.cpp:130-133 | Any error below half a thousandth, such as that of single precision, disappears in the rounding. |
| Rounding.NearOnGridIsEqual | server/server.cpp:383-390 | Between rounded coordinates the tolerance test of the queries holds exactly for equal ones. |
| Rounding.NearIsNotTransitive | server/server.cpp:383-390 | Without the rounding the test is no equivalence: three points where it fails to be transitive. |
| Prices.FindCity | server/server.cpp:402-404 | The city of a point is that of the first row whose latitude and longitude both differ by less than 0.0001, and 0 if no row does. |
| Prices.DbPrice | server/server.cpp:395-396 | The table's price of a code is that of its first row, and 0 if it has none. |
| Prices.CacheComesFirst | server/server.cpp:666-674 | A close charges the cached price if the code is cached, else the price of the code's first row, else nothing. |
| Prices.MergeCacheOverrides | server/server.cpp:291 | The last line for a code is what the cache then holds for it; a code no line names keeps its price. |
| Prices.RepricingIsLocal | server/price_updater.cpp:126-134 | A new price is what its code is charged from then on if the table has the code; no other code costs more or less, and no point changes its city. |
| Prices.ListingRebuildsMap | server/price_updater.cpp:49-52 | Assigning the pairs of a map one by one rebuilds the map, whatever the iteration order. |
| Prices.PutAllKeepsRows | server/price_updater.cpp:121-158 | A row that existed keeps its name, code and place through the whole loop, and takes its listed price if it has one. |
| Prices.PutAllAppended | server/price_updater.cpp:137-157 | A row the loop adds belongs to a listed code that had none, carries the last listed price and the given name and place, and unique codes stay unique. |
| Prices.UpsertTheorem | server/price_updater.cpp:108-164 | For any map in any order over any table: listed codes all have a row, all their rows have the map's price, other rows are untouched, no name or coordinate of an old row changes. |
| Prices.MergeTheorem | server/server.cpp:237-298 | The server's loop reprices the rows its file names and neither adds nor drops a row, because its INSERT is rejected. |
| Prices.DeleteTheorem | server/price_updater.cpp:253-262 | Removing a code drops exactly the rows with it and keeps unique codes unique. |
| Prices.DeleteSplits | server/price_updater.cpp:253-262 | It treats each part of the table on its own, so the rows that stay keep their order. |
| Prices.UniqueRowIsFound | server/server.cpp:395-396 | With one row per code a price lookup finds that very row. |
| PriceDb.PriceTable.Update | server/price_updater.cpp:126-137 | The scan has the effect of UPDATE, and reports no change exactly when no row has the code. |
| PriceDb.PriceTable.TryInsert | server/utils.cpp:201-209 | A row without a city name is refused and the table stays as it was. |
| PriceDb.PriceTable.Delete | server/price_updater.cpp:253-262 | The scan keeps the other rows in order. |
| PriceDb.PriceTable.PutLoop | server/price_updater.cpp:121-158 | The UPDATE-then-INSERT loop of both programs computes the specified table. |
| PriceDb.PriceTable.Upsert | server/price_updater.cpp:108-164 | After the updater's loop the table says what the map says, with every older row in its place. |
| PriceDb.PriceTable.MergeFile | server/server.cpp:237-298 | The server's loop updates table and cache together and leaves the set of codes as it was. |
| PriceDb.PriceTable.SelectCity | server/server.cpp:402-404 | The scan returns the city of the first row within 0.0001 degrees on both coordinates, and 0 if there is none. |
| PriceDb.PriceTable.SelectPrice | server/server.cpp:395-396 | The scan returns the price of the first row with the code. |
| PriceDb.PriceTable.Seed | server/utils.cpp:243-279 | The seeding loop adds each city that has no row near it yet, and nothing else. |
| PriceDb.SeedCovers | server/utils.cpp:243-279 | Seeding keeps every existing row in place and leaves each city with a row near it. |
| PriceDb.SeedAddsOnlyNew | server/utils.cpp:255-278 | Every row seeding adds is a city that had no row near it yet. |
| PriceDb.SeedIsIdempotent | server/utils.cpp:243-279 | Starting the server again adds nothing. |
| PriceDb.FreshSeed | server/utils.cpp:229-279 | A new database gets the ten cities, one row per code, each found at its own coordinates. |
| PriceDb.GeneratedFileMatchesDb | server/server.cpp:140-166 | With one row per code a reader of the generated file finds the table's codes, each at the six printed digits of the table's price. |
| Ledger.LatestMatch | server/server.cpp:387-390 | The close query finds a row if any matches, and then a matching one that none starts after. |
| Ledger.MatchIsKey | server/server.cpp:383-390 | On rounded rows the tolerance WHERE clause selects exactly the open rows with the frame's key. |
| Ledger.ScansByKey | server/server.cpp:383-390 | Both open-session scans find the one open row of the frame's key, or none together. |
| Ledger.FrameByKey | server/server.cpp:591-697 | What any frame does, told by keys: a START opens unless its key is open, an END closes and charges the open row of its key, any other status does nothing. |
| Ledger.RunKeepsValid | server/server.cpp:591-697 | At every point of every run each key has at most one open row. |
| Ledger.MinutesInSeconds | server/server.cpp:392-393 | Each end of a stay is cut to whole seconds on its own, and m minutes are counted if and only if the seconds between are at least 60 m and fewer than 60 m + 60; a stay that ends before it starts mirrors this. |
| Ledger.FeeInCents | server/server.cpp:677 | A fee is c cents if and only if price times minutes is from 60 c - 30 up to but not including 60 c + 30: half a cent counts as a whole one, and likewise below zero. |
| Ledger.QueryInNumbers | server/server.cpp:591-611 | What a frame's queries are bound to: its device, its coordinates in whole thousandths and the city found there. |
| Ledger.StartInNumbers | server/server.cpp:613-646 | A START, field by field and without any of the model's keys: within 0.0001 degrees of an open row of its customer and city it is already open; else one row is appended with the rounded place, no minutes, no fee and the arrival time. |
| Ledger.EndInNumbers | server/server.cpp:648-696 | Of the rows an END matches, the one that started last gets status 0, minutes, fee and end time, no other field or row changes, and the three numbers are answered. |
| Ledger.NothingInNumbers | server/server.cpp:613-697 | An END that matches no open row, or a status that is neither 0 nor 1, changes nothing. |
| Server.ParkingServer.CheckOpen | server/server.cpp:383-385 | The scan answers whether any row matches. |
| Server.ParkingServer.FindOpen | server/server.cpp:387-390 | The scan returns id and start of the latest match. |
| Server.ParkingServer.UpdateClose | server/server.cpp:398-400 | The update by row id changes that row's four closing fields and no other row. |
| Server.ParkingServer.StartParking | server/server.cpp:618-646 | A START appends one open row, unless one matches already. |
| Server.ParkingServer.EndParking | server/server.cpp:648-696 | An END closes the latest match at the price of cache or table and answers the client, or changes nothing: m minutes for at least 60 m and fewer than 60 m + 60 seconds, each end cut to seconds first, and c cents for the nearest cent, half a cent up. |
| Server.ParkingServer.HandleFrame | server/server.cpp:591-697 | The imperative frame handler, statement by statement, has the specified effect on all of its state, keeps the table valid and answers exactly the closes. |
| Server.ParkingServer.Reload | server/server.cpp:508-514 | A reload changes prices and cache and no session. |
| Server.ParkingServer.Serve | server/server.cpp:549-697 | Any mix of frames and reloads is the run of the corresponding ledger events, with one "OK CLOSED" per accepted close. |
| Sessions.FrameIsSignal | server/server.cpp:591-697 | One frame on the real table is one signal on the exactly keyed table, with the same answer. |
| Sessions.RunIsSessionRun | server/server.cpp:591-697 | On every run the tolerance-driven table is the exactly keyed table, answer for answer. |
| LedgerRefinement.StartRefines | server/server.cpp:618-646 | A START keeps the table and the book of open sessions and tickets in agreement. |
| LedgerRefinement.EndRefines | server/server.cpp:648-696 | So does an END, whose ticket enters the log as the map entry leaves. |
| LedgerRefinement.RunRefines | server/server.cpp:591-697 | On every run the table and the book agree, answer alike, and the log only grows at its end. |
| LedgerRefinement.LedgerRefinesBook | server/server.cpp:591-697 | From any valid table, the server's run refines a map from key to start time plus an append-only ticket log. |
| LedgerRuns.RunBalances | server/server.cpp:591-697 | On every run: rows = initial + opens, open rows = initial + opens - closes, revenue grew by the fees answered, and 60 times the fees differ from price times minutes by at most 30 per ticket. |
| LedgerRuns.ClosedRowsAreFinal | server/server.cpp:398-400 | No later run changes any field of a closed row. |
| LedgerRuns.RepeatedSignalIsNoOp | server/server.cpp:613-697 | A signal repeated at any later time changes nothing more. |
| LedgerRuns.SessionsDetermineRows | server/server.cpp:378-381 | Two valid tables with the same sessions are the same table. |
| LedgerRuns.CollapseKeepsTable | server/server.cpp:613-697 | Dropping the repeats of consecutive frames leaves the very same table. |
| LedgerRuns.SignalIsLocal | server/server.cpp:383-390 | A signal acts on its own key's sessions alone and leaves every other key's as they were. |
| LedgerRuns.KeysAreIndependent | server/server.cpp:591-697 | The rows of a key after any run equal those from only the frames that resolve to it, under the same price changes and arrival times. |
| LedgerRuns.SpotsAreIndependent | server/server.cpp:591-697 | While a spot's city does not change, device and rounded coordinates alone pick the frames that matter to its rows. |
| LedgerRuns.CityChangeStrandsSession | server/server.cpp:402-404 | Across a price change, an END closes what its START opened if and only if the spot still resolves to the same code. |
| LedgerRuns.OpenCountIsKeyCount | server/server.cpp:383-390 | There are as many open rows as open keys. |
| LedgerRuns.OpenKeysComeFromFrames | server/server.cpp:613-646 | A run opens no key but those of its frames. |
| Money.FeeIsMonotone | server/server.cpp:677 | A higher price or more minutes never costs less. |
| Money.MinutesAreMonotone | server/server.cpp:392-393 | A later end never counts fewer minutes. |
| Money.MinutesMeasureTime | server/server.cpp:392-393 | Against real time the minutes charged never exceed the time parked by a second and never miss a whole minute of it; Ledger.MinutesInSeconds has the exact count. |
| Money.FeeIsNearest | server/server.cpp:677 | A fee is within half a cent of price times minutes over sixty. |
| Money.SplitLosesMinutes | server/server.cpp:392-393 | Cutting a stay into k pieces never gains minutes and loses at most k - 1. |
| Money.SplittingAStay | server/server.cpp:657-677 | Cutting a stay into k consecutive ones at price P changes the bill by at most P(k-1)/60 + (k+1)/2 cents, and raises it by at most (k+1)/2. |
| Generator.CoordinateGenerator.FillDataStruct | stm32/Coordinate_generator/my_project/Src/I2C_Coordinate_generator.c:23-34 | A call at index i below ten fills device 1610, entry i of the coordinate table and START, and moves to i + 1; at index ten it starts again with entry 0. |
| Generator.CoordinateGenerator.SendData | stm32/Coordinate_generator/my_project/Src/I2C_Coordinate_generator.c:37-52 | Every frame is handed over once and the driver is idle again afterwards, transmitted or not. |
| Generator.CoordinateGenerator.Emit | stm32/Coordinate_generator/my_project/Src/my_main.c:15-38 | Round i of the endless loop sends a START and then an END at entry (index + i) mod 10 of the coordinate table, whatever the driver's verdicts. |
| Generator.StreamVisitsCities | stm32/Coordinate_generator/my_project/Src/my_main.c:15-38 | From a reset generator, frames 2i and 2i + 1 are the START and the END of device 1610 at city i mod 10 of the server's list, for every i. |
| Generator.AlternatingLeavesParked | server/server.cpp:613-697 | After an alternating stream, with prices changing under it, the open keys are exactly the one parked, if any. |
| Generator.SignalOpenKeys | server/server.cpp:613-697 | A START adds its key to the open ones and an END takes it away. |
| Generator.CarriedAlternates | stm32/Coordinate_generator/my_project/Src/my_main.c:15-38 | Through any channel that treats equal coordinates alike, with reloads in between, each END still has the key of its START, and somebody is parked exactly after an odd number of frames. |
| Generator.GeneratorLeavesAtMostOne | stm32/Coordinate_generator/my_project/Src/my_main.c:19-37 | From an empty lot, through any such channel, at any times and with any reloads in between, the generator's stream has one session open after an odd number of frames and none after an even one. |
| Generator.NoiseIsUndistorted | server/server.cpp:130-133 | Frames that arrive up to single-precision noise arrive, after rounding, as through no channel at all. |
| Generator.UndistortedLeavesAtMostOne | stm32/Coordinate_generator/my_project/Src/my_main.c:19-37 | The same conclusion for coordinates delivered unchanged or nearly so. |
| Generator.GeneratorCitiesAreSeeded | stm32/Coordinate_generator/my_project/Inc/coordinates.h:11-27 | The ten coordinates of the board are those of the ten seeded cities. |
| Generator.AtMostOneSessionPerSpot | server/server.cpp:613-697 | Under any loss, duplication or reordering, one device over k spots with fixed cities leaves at most k sessions open. |
| Printing.SixDigitIff | server/price_updater.cpp:95-96 | A price survives printing exactly when it is a whole multiple of its sixth digit's weight. |
| Printing.SmallIsSixDigit | server/price_updater.cpp:95-96 | Below 10000.00 every whole number of cents survives. |
| Printing.PrintedIsNearest | server/price_updater.cpp:95-96 | Beyond that the printed price is off by at most half of its sixth digit. |
| Printing.PrintedIs | server/price_updater.cpp:95-96 | Written as q * 10^k + r with a six-digit q, a price prints as q * 10^k if r is less than half of 10^k and as (q + 1) * 10^k if it is more; a negative price prints as its mirror image. |
| Printing.TiePrinted | server/price_updater.cpp:95-96 | At exactly half, the price goes up if the double that stands for it is more than the price, stays if it is less, and goes to the even digit if it is the price itself. |
| Printing.BinaryErrorIs | server/price_updater.cpp:95-96 | The error that decides a tie is that of the nearest 53-bit significand, ties to even. |
| Printing.PrintedIsSixDigit | server/price_updater.cpp:95-96 | A printed price has at most six digits, so printing it again changes nothing. |
| PriceProtocol.StepKeepsInv | server/price_updater.cpp:183-277 | Every step of updater and server, restarts included, keeps the table's codes in step with the file's, and the file the printout of the map the updater holds, phase by phase. |
| PriceProtocol.RunKeepsInv | server/price_updater.cpp:183-277 | So does every interleaving, over any number of server lives. |
| PriceProtocol.StartKeepsInv | server/server.cpp:361-362 | Every server start satisfies the invariant, on any table and on whatever shared memory an earlier life left. |
| PriceProtocol.AddedCity | server/price_updater.cpp:183-205 | After a run of Add(city, code, lat, lng, price) every older row keeps name, code and place and takes the file's price, and if the table had the file's codes but not this one, exactly one row is appended, PriceRow(city, code, lat, lng, price); a lookup at (lat, lng) finds its code unless an older row is within tolerance. |
| PriceProtocol.ChangedPrice | server/price_updater.cpp:213-232 | After a run of Change(code, price) the rows of the code cost that price, no row comes, goes or moves, and the others take the file's price. |
| PriceProtocol.RemovedCity | server/price_updater.cpp:239-277 | After a run of Remove(code) the code is in no row, not in shared memory and not in the file; rows and prices of the other codes are as they were. |
| PriceProtocol.HalfReload | server/server.cpp:508-514 | Between the two halves of a reload the file's last line for a code is its cached price and that of its rows, whatever shared memory says; a code without a line is as it was. |
| PriceSchedules.CopiesConverge | server/server.cpp:508-514 | Once some reload has read the file since the last save and taken shared memory over since it was last written, then outside reloads all four copies come from the saved map, and are the same if and only if six digits are enough for the operator's price. |
| PriceSchedules.PricesConverge | server/server.cpp:508-514 | For every interleaving, once a reload that began after the last updater's database step is over, file, shared memory, cache and table agree and no removed code is left anywhere, if and only if six digits are enough for the operator's price. |
| PriceSchedules.ChargesTableIff | server/server.cpp:666-674 | Every code, known or not, is charged at the table's price exactly when each cached price is the table's, 0 for a code without a row. |
| PriceSchedules.LastRunDecides | server/server.cpp:508-514 | Once all is quiet, the state before the last save and the order of the steps since decide what the cache holds and what every code of the table is looked up at. |
| PriceSchedules.UpsertSignalIff | server/server.cpp:510-513 | Exactly when, after any interleaving with the last addition or change, every code is charged at the table's price: by whether a reload loaded after the share, wrote after the store, and had read the new file. |
| PriceSchedules.RemovalSignalIff | server/server.cpp:510-513 | The same for a removal, which rewrites no other row. |
| PriceSchedules.ScheduleDecidesChange | server/server.cpp:510-513 | For a change that changes something, after a server that kept up, the order of the steps alone decides whether charged prices are the table's. |
| PriceSignals.RunKeepsUndisturbed | server/server.cpp:508-514 | From the first unabsorbed signal of an updater on, agreement up to the sixth digit survives every run of that server life in which no further one lands inside a reload. |
| PriceSignals.QuietChargesDbPrice | server/server.cpp:666-674 | In one server life from any start, with no updater's signal absorbed, whenever all is quiet: if an updater has signalled, the table carries the printout of every price charged, the same price if and only if six digits are enough for what is cached; if none has, charges are the table's if and only if the shared memory found at the start fits the table. |
| PriceSignals.LastSignalDecides | server/server.cpp:510-513 | Whatever came before, absorbed signals, restarts and foreign shared memory included: if the last updater's SIGHUP found the server serving, the quiet cache of that life is the map it published, the table carries its printout, and every charge is the table's if and only if six digits are enough for the operator's price. |
| PriceSignals.StartDecides | server/server.cpp:492-493 | Exactly when a server no updater has talked to since its start charges its table's prices: shared memory as found must fit the table, or the printed table once a reload has applied the file. |
| PriceSignals.UniqueStartTable | server/server.cpp:140-166 | With one row per code the file that a start writes is the printout of what the table is looked up at. |
| PriceSignals.RestartDecides | server/server.cpp:361-362 | The same for a restart, on the reseeded table. |
| PriceSignals.EveryQuietMomentIsDecided | server/server.cpp:508-514 | Every quiet moment of every run over any number of server lives falls under one of these if-and-only-ifs, by the last write of the price file. |
| PriceRuns.StaleTableRun | server/server.cpp:510-513 | A run from full agreement, within the protocol, after which the quiet server charges 200 where the table says 100. |
| PriceRuns.StaleRestart | server/server.cpp:492-493 | A restart on what that run leaves: quiet at once, with no signal absorbed in its life, it charges 200 where the table says 100, whatever happens until an updater comes. |
| PriceRuns.SeededTwice | server/utils.cpp:243-279 | A seeded code removed and given to another place is seeded again at the next start: it is in two rows, and the first reload charges 100 where both rows now say 500. |
| PriceRuns.RoundedPriceRun | server/price_updater.cpp:95-96 | An undisturbed change to 12345.67 and a full reload, after which the quiet server charges 12345.67 where the table says 12345.7. |
| PriceSources.PricesStayKnown | server/price_updater.cpp:183-277 | In every reachable state, every price in any copy is one the run started with, one an updater run published, one a restart seeded, or the printout of one of these. |
| PriceSources.ChargedPriceIsKnown | server/server.cpp:666-674 | Across all interleavings a charged price is 0, one its code had at the start, one published for it or seeded by a restart, or the printout of one of these. |
| PriceSources.FreshInstallPrices | server/utils.cpp:229-241 | On a fresh installation: 0, the seeded price, or a published one or its printout. |
| PricePrograms.Machine.LoadPrices | server/price_updater.cpp:64-82 | The updater reads back from the text exactly the map whose printout was written. |
| PricePrograms.Machine.ReadLines | server/server.cpp:249-256 | The server reads from the text exactly the printed pairs, in order. |
| PricePrograms.Machine.Publish | server/price_updater.cpp:200-202 | After it, a reader of the text finds the printout of the map and a reader of the segment's bytes the map itself, whatever order it was written in, up to the 84 prices of the reader's declared size. |
| PricePrograms.Machine.AddNewCity | server/price_updater.cpp:183-206 | The command is a legal run of the five protocol steps, and in terms of its arguments: older rows stay where they are at the file's prices, a code new to the table gets exactly one row, PriceRow(city, code, lat, lng, price), and is found at (lat, lng) unless an older row is within tolerance. |
| PricePrograms.Machine.UpdateCityPrice | server/price_updater.cpp:213-232 | So is a price change: the code's rows then cost the price entered, and no row comes, goes or moves; an unknown code is refused and nothing changes. |
| PricePrograms.Machine.RemoveCity | server/price_updater.cpp:239-277 | So is a removal: exactly the rows of other codes stay; an unknown code is refused and nothing changes. |
| PricePrograms.Machine.ReloadIfAsked | server/server.cpp:508-514 | The server's check runs the four reload steps when the flag is up and does nothing otherwise. |
| PricePrograms.Machine.Restart | server/server.cpp:355-362 | Seeding, writing the file and loading shared memory leave the state of the protocol's restart. |
| PriceSegment.Segment.Write | server/price_updater.cpp:37-56 | The bytes then hold the map. |
| PriceSegment.Segment.Read | server/server.cpp:205-225 | What is read through the reader's smaller mapping is the map that was written, for any codec of doubles that carries its prices. |
| ParkingSystem.PricesRunAlone | server/server.cpp:549-697 | Frames do not disturb the price protocol: its part of any joint run is a protocol run of its own. |
| ParkingSystem.RowsRunAsLedger | server/server.cpp:549-697 | The rows of any joint run are those of a ledger run, so all ledger theorems apply. |
| ParkingSystem.EveryFeeHasASource | server/server.cpp:666-677 | In any interleaving of cars and updates, a fee is the rounded charge at 0, at a price the city started with, at one published for it, or at the printout of one of these. |
| ParkingSystem.QuietFeeIsTablePrice | server/server.cpp:666-677 | If the last updater's SIGHUP found the server serving and all is quiet, the table carries the printout of every price charged; with six digits enough, the fee is computed from the table's price. |
| PricesFile.SavePricesFile | server/price_updater.cpp:89-97 | The loop writes one line per pair, in the order given, prices at six significant digits, with an exponent from a million on. |
| PricesFile.LoadPricesFile | server/price_updater.cpp:64-82 | The parser loop yields the map of all entries, or nothing if any token throws. |
| PricesFile.ServerReadFile | server/server.cpp:249-256 | The server's loop yields the pairs of the well-formed lines and skips the others. |
| PricesFile.PriceRoundTrip | server/price_updater.cpp:95-96 | Both number readers find in a price's text exactly what six digits leave of it, exponent or not. |
| PricesFile.LineRoundTrip | server/server.cpp:157-161 | Both parsers read a written line back as its code and the printed price. |
| PricesFile.PricesFileRoundTrip | server/price_updater.cpp:64-97 | For every map of int32 codes to prices, in any order, the updater loads back the map with its prices as printed and the server reads the same pairs. |
| PricesFile.FileIsLosslessIff | server/price_updater.cpp:64-97 | The map comes back unchanged if and only if six digits are enough for each of its prices. |
| PricesFile.FixedIs | server/price_updater.cpp:95-96 | A price below a million is its dollars, and after a point as many of the two decimals as are left without zeros at the end, so 5.50 is "5.5" and 7.00 is "7". |
| PricesFile.ExponentFromAMillion | server/price_updater.cpp:95-96 | A price has an exponent if and only if it is a million or more. |
| PricesFile.ScientificIs | server/price_updater.cpp:95-96 | It then has one digit before the point, which is not zero. |
| PricesFile.ExponentIs | server/price_updater.cpp:95-96 | The exponent has a sign and at least two digits. |
| PricesFile.FractionIs | server/price_updater.cpp:95-96 | Of a fraction exactly the zeros at its end are dropped, and the point with them if nothing is left. |
| PricesFile.IntScanned | server/price_updater.cpp:72 | On any text, a code is blanks, at most one sign and digits, and ends at the first other character; without a digit, or beyond 32 bits, there is none. |
| PricesFile.MantissaScanned | server/price_updater.cpp:74 | Digits may stand before or after a point or on both sides, but not on neither. |
| PricesFile.ExponentScanned | server/price_updater.cpp:74 | An exponent scales by powers of ten either way; an e without digits ends the number for the updater and spoils it for the server. |
| PricesFile.UpdaterWithoutComma | server/price_updater.cpp:69-80 | A line that is one token throws if it is no number and is passed over if it is. |
| PricesFile.UpdaterWithComma | server/price_updater.cpp:69-80 | Only the first two tokens of a line count: a bad code throws, a missing price is passed over, a bad price throws. |
| PricesFile.AnyThrowIsFinal | server/price_updater.cpp:69-80 | The updater has a map if and only if no line of the file throws. |
| PricesFile.ServerOnLine | server/server.cpp:249-256 | The server takes the number at the start of a line and the one behind the next character that is not blank, whatever character that is, and passes over a line that does not have both. |
| TextLines.LastLineCounts | server/price_updater.cpp:69 | A last line without a newline is read like the others. |
| SharedMemory.Store | server/price_updater.cpp:46 | A copy writes its own bytes of the segment and no others. |
| SharedMemory.WritePrices | server/price_updater.cpp:37-56 | All accesses stay inside if and only if the count and records fit, and then the segment holds the image with the rest untouched. |
| SharedMemory.LoadPrices | server/server.cpp:205-225 | All accesses stay inside if and only if the announced count fits the mapping, and then the cache is the map of the records. |
| SharedMemory.RecordRoundTrip | server/price_updater.cpp:49-52 | A record reads back as its code, negative ones included, and its 64 price bits. |
| SharedMemory.ImageLayout | server/price_updater.cpp:37-56 | Byte by byte: the count in bytes 0 to 7, record i from byte 8 + 12 i on with its code in four bytes and its price bits in eight, all low byte first and negative codes in two's complement. |
| SharedMemory.ImageRoundTrip | server/server.cpp:205-225 | For every map and order, any view that starts with the image reads back the count and exactly the map. |
| SharedMemory.Publish | server/server.cpp:36 | One writer and one reader on one segment: writing fits if and only if there are at most 170 prices, reading if and only if at most 84, and then the map arrives unchanged. |
| Framing.ReadBounds | server/server.cpp:438-470 | A read never takes more than it asks for; a count is the bytes taken; a -1 or -2 leaves the frame incomplete. |
| Framing.ReadIs | server/server.cpp:438-470 | What a read does, from its script alone: it takes what its turns offer as far as the peer has sent it until it is complete, and otherwise the first flag, failure, end of stream or end of the script decides how it ends. |
| Framing.Connection.ReadN | server/server.cpp:438-470 | For any script of chunks, interrupts and signals the buffer holds the next bytes of the stream, as many as the specification says. |
| Framing.Connection.Judge | server/server.cpp:566-588 | One read of the client loop, and what is made of its return value: dropped, full, short or gone; the client stays unless the read ends in an error, in waiting or with no byte. |
| Framing.Connection.Session | server/server.cpp:549-588 | The client loop cuts the stream as specified and consumes every call until one has stop set or one read ends it: the full frames are the twelve bytes of every complete read, in order, there is a reload for every flag seen, and if every read brings twelve bytes each call yields a frame. |
| Framing.SessionIs | server/server.cpp:549-588 | Of exactly the calls that are made, every complete read is a full frame with its twelve bytes, every flag a reload, and the bytes consumed are those of their reads. |
| Framing.CallsAreCounted | server/server.cpp:549-588 | Every script has such a number of calls: all up to one that finds stop set, or up to the first read that ends in an error, in waiting or with no byte. |
| Framing.EveryTwelveIsAFrame | server/server.cpp:549-588 | With no flag set and twelve bytes for every read, k calls yield exactly k full frames, the consecutive twelves of the stream. |
| Framing.ReloadsInOrder | server/server.cpp:552-588 | A reload asked for at the head of a call comes before its frame, one that interrupts a read after the bytes that read abandons. |
| Framing.SessionCovers | server/server.cpp:549-588 | From any position, the items lay the stream out byte by byte, full frames having twelve and all else fewer. |
| Framing.EveryByteAccounted | server/server.cpp:438-470 | Bytes received = 12 times the full frames + the abandoned prefixes, cut-off tail and read under way. |
| Framing.FrameAlignment | server/server.cpp:566-588 | A full frame holds the twelve bytes at twelve times its number plus the bytes lost before it. |
| Framing.ChunkingDoesNotMatter | server/server.cpp:438-470 | If no nonempty prefix is dropped, full frame i is stream bytes [12i, 12i+12), whatever the chunking. |
| Framing.AlignedIffNothingLost | server/server.cpp:566-588 | Full frame number i holds the i-th twelve bytes of every stream of its length if and only if no byte was lost before it. |
| FramePath.SwapEndian | stm32/Coordinate_generator/my_project/Src/I2C_Coordinate_generator.c:55-61 | The in-place loop reverses a buffer of any length. |
| FramePath.ReverseTwice | stm32/Coordinate_generator/my_project/Src/I2C_Coordinate_generator.c:55-61 | Doing so twice restores it. |
| FramePath.SwapFloat | BeagleBone/i2c_demon/i2c_master.h:53-56 | The four bytes come out in the opposite order. |
| FramePath.I2cReadFrame | BeagleBone/i2c_demon/i2c_master.c:53-66 | A short bus read fails; twelve bytes decode field by field. |
| FramePath.FloatIsReversed | server/server.cpp:114-123 | The server's conversion of a float reverses its four bytes on these hosts. |
| FramePath.BusRoundTrip | BeagleBone/i2c_demon/i2c_master.c:53-66 | The BeagleBone's decoding undoes the board's reversal on all four fields. |
| FramePath.PackedInOrder | BeagleBone/i2c_demon/i2c_daemon.c:139-142 | In the board's memory words stand low byte first, between daemon and server high byte first, with the coordinates' bytes in the same order both times. |
| FramePath.DecodedByByte | server/server.cpp:591-594 | Which of the twelve bytes ends up where in each of the two decoders' fields. |
| FramePath.PathReversesCoordinates | BeagleBone/i2c_demon/i2c_daemon.c:139-142 | Through all machines, id and status arrive unchanged and each coordinate's bytes reversed. |
| FramePath.PathIsFaithfulIff | BeagleBone/i2c_demon/i2c_daemon.c:139-142 | A frame arrives intact if and only if both coordinates' bytes read the same from either end. |
| FramePath.FirstCoordinateIsLost | stm32/Coordinate_generator/my_project/Inc/coordinates.h:17 | No frame with the board's first latitude arrives as it was sent. |
| FramePath.NetworkOrderWouldBeFaithful | BeagleBone/tcp_client_demon/client.h:126-128 | Had the daemon put the coordinates in network order too, as the comment there assumes, every frame would arrive intact. |
| EndToEnd.SingleIsNearest | stm32/Coordinate_generator/my_project/Inc/coordinates.h:13-27 | The bytes taken for the board's twenty coordinates are those of the nearest floats. |
| SinglePrecision.SignBit | server/server.cpp:114-123 | The top bit of a float's last byte in memory is its sign: a value with the bit is the negative of the one without, which is not negative. |
| SinglePrecision.NoSignBit | server/server.cpp:114-123 | Without the bit no value is negative. |
| SinglePrecision.OneIsOne | server/server.cpp:114-123 | The bytes 00 00 80 3F stand for one. |
| SinglePrecision.ExponentDoubles | server/server.cpp:114-123 | One more in the exponent doubles the value. |
| SinglePrecision.FractionsAreEven | server/server.cpp:114-123 | Within an exponent consecutive fractions are the same distance apart, two to the minus twenty-third of the number with fraction zero. |
| SinglePrecision.TinyAreEven | server/server.cpp:114-123 | Exponent zero continues the spacing of exponent one down to zero. |
| EndToEnd.SessionCarriesStream | server/server.cpp:549-597 | Any script that loses nothing hands the ledger the frames decoded from the consecutive twelves of the stream, whatever the chunking. |
| EndToEnd.WireArrives | server/server.cpp:591-594 | What the server decodes of a board frame that went through all machines: identity and status unchanged, each coordinate the number its reversed bytes stand for, which is finite. |
| EndToEnd.ArrivesNegative | server/server.cpp:593-594 | A coordinate of the board arrives negative if and only if its first byte on the wire is 128 or more: the latitudes 31.749, 31.073 and 32.999 and the longitudes 34.789, 34.954, 35.574, 34.909 and 35.166, no other; none arrives as zero. |
| EndToEnd.ActOfItem | server/server.cpp:549-597 | Each full frame becomes one frame for the ledger with the fields decoded from its bytes, each reload one reload, and nothing else becomes anything. |
| EndToEnd.BoardLeavesAtMostOne | server/server.cpp:549-697 | The system as written, end to end: whatever the chunking and the signals, as long as no byte is lost, at any times and with any reloads, the board's stream leaves one row open after an odd number of frames and none after an even one. |
| EndToEnd.BoardFindsNoCity | server/server.cpp:606-611 | As written, no frame of the board resolves to any city of the seeded table, at whatever prices. |
| EndToEnd.SeedIsOnTheMap | server/utils.cpp:229-279 | A fresh installation has no city at a latitude as small or as large as those that arrive. |
| EndToEnd.ReloadStaysOnTheMap | server/server.cpp:237-298 | Reloads do not change that. |
| EndToEnd.BoardPaysNothing | server/server.cpp:666-677 | Over such a table, and with no price cached for code 0, a board frame that closes a stay closes it at price and fee 0. |
| FreeParking.BoardNeverPays | server/server.cpp:549-697 | So over every joint run of the board's cars, updaters, reloads, signals and restarts, as long as operators add cities at real places: every stay is closed at price and fee 0. |
| FreeParking.FreshInstallIsFree | server/server.cpp:355-362 | In particular from a fresh installation. |
| BitKernels.ReverseBits | stm32/Coordinate_generator/Drivers/CMSIS/Include/cmsis_iccarm.h:511-522 | The early-exit loop puts bit i at 31 - i for every word, its 8-bit counter never passing zero. |
| BitKernels.ReversedTwice | stm32/Coordinate_generator/Drivers/CMSIS/Include/cmsis_iccarm.h:511-522 | Bit reversal is its own inverse. |
| BitKernels.CountLeadingZeros | stm32/Coordinate_generator/Drivers/CMSIS/Include/cmsis_iccarm.h:496-509 | The loop ends for every word and returns the zeros above the highest one, 32 for zero. |
| BitKernels.LeadingZerosBracket | stm32/Coordinate_generator/Drivers/CMSIS/Include/cmsis_iccarm.h:496-509 | A count c means 2^(31-c) <= v < 2^(32-c), and 32 means zero. |
| BitKernels.LeadingZerosUnique | stm32/Coordinate_generator/Drivers/CMSIS/Include/cmsis_iccarm.h:496-509 | Only one count meets that description. |
| BitKernels.LeadingOfReversed | stm32/Coordinate_generator/Drivers/CMSIS/Include/cmsis_iccarm.h:496-522 | Counting leading zeros of the reversal counts trailing zeros of the word. |
| Nvic.BitsAddUp | stm32/Coordinate_generator/Drivers/CMSIS/Include/core_cm0.h:785-786 | For every group and implemented width the two fields share out exactly the implemented bits. |
| Nvic.DecodePriority | stm32/Coordinate_generator/Drivers/CMSIS/Include/core_cm0.h:807-817 | Both out-parameters are the fields of the priority. |
| Nvic.DecodeEncode | stm32/Coordinate_generator/Drivers/CMSIS/Include/core_cm0.h:779-817 | Decoding an encoding gives each argument in its field's width, and the encoding fits the implemented bits. |
| Nvic.EncodeDecode | stm32/Coordinate_generator/Drivers/CMSIS/Include/core_cm0.h:779-817 | Encoding the decoded parts of an implemented priority gives it back. |
| Nvic.LowBitsAreModulo | stm32/Coordinate_generator/Drivers/CMSIS/Include/core_cm0.h:789-790 | Masking to k bits is reduction modulo 2^k. |
| Nvic.EncodingOrder | stm32/Coordinate_generator/Drivers/CMSIS/Include/core_cm0.h:779-792 | Encodings compare as numbers exactly as (preemption, subpriority) pairs compare lexicographically. |
| Nvic.GroupSplitsByte | stm32/Coordinate_generator/Drivers/CMSIS/Include/core_cm0.h:807-817 | Of the byte that holds a priority, the bits above the group number are the preemption part and the others the subpriority: two priorities have equal parts exactly when those bits agree. |
| Nvic.Lanes | stm32/Coordinate_generator/Drivers/CMSIS/Include/core_cm0.h:734-735 | Writing one byte lane of a register of any content reads back its implemented bits and leaves the other lanes' priorities. |
| Nvic.CellsApart | stm32/Coordinate_generator/Drivers/CMSIS/Include/core_cm0.h:610-612 | No two interrupts share a register and a lane. |
| Nvic.Controller.SetPriority | stm32/Coordinate_generator/Drivers/CMSIS/Include/core_cm0.h:730-742 | Get after set is the priority in the implemented bits, and every other interrupt's priority is as before: of all register bits exactly byte irq of the IP registers changes, or byte irq + 8 of the SHP registers, and holds the priority in its top bits. |
| Timestamp.PadOrder | server/utils.cpp:185-187 | Zero-padded numbers of one width compare as texts exactly as they do as numbers. |
| Timestamp.TextLayout | server/utils.cpp:185-187 | The text is the seven padded numbers with two dashes, a blank, two colons and a point between them, 23 characters in all. |
| Timestamp.EveryMillisecondCounts | server/server.cpp:392-393 | The next millisecond on the clock and in the Gregorian calendar is one more on the scale of the ledger's times. |
| Timestamp.LeapYears | server/server.cpp:392-393 | Leap years repeat every 400 years, with 1900, 2100 and 2200 left out and 2000 kept. |
| Timestamp.FieldsTextOrder | server/utils.cpp:185-187 | Texts of the same layout compare field by field, and equal texts have equal fields. |
| Timestamp.TextOrderIsTimeOrder | server/utils.cpp:177-189 | For years 0 to 9999 the text order of timestamps is their time order, and no two share a text. |
| Timestamp.TextDescendingPicksLatest | server/server.cpp:387-390 | A row no other follows by text is a row no other follows in time, so the descending text order picks the latest. |

## Left out

- Coordinates that are not finite: a NaN or an infinity matches no row in the original; here every coordinate is a real number. EndToEnd shows that the board's own are finite as they arrive.
- IEEE rounding: coordinates are exact, money is in whole cents, and the fee rounds the exact charge half away from zero. Of the binary format of a price only the direction of printing ties is modelled, for amounts below 2^53 cents.
- PricesFile.LoadPricesFile: reads decimal numerals with or without an exponent, but no hexadecimal, infinity or NaN numerals, which std::stod accepts, and no overflow.
- PricesFile.ServerReadFile: the stream extractor's failure on numerals beyond the range of a double is not modelled.
- PricePrograms.Machine.Publish: demands that the map fit the reader's declared size, 84 prices, which the source does not check; PriceProtocol's own steps put no bound on it. How a price becomes the bits of a double is a parameter.
- SQLite failures, busy locks, prepare errors and the truncation of stored codes to 32 bits; the tables have their semantics only. A code stored as NULL does not occur.
- A time is one reading per frame in milliseconds; the original reads the clock separately for the minutes and for the end text. Timestamp relates the texts to such instants.
- Leap seconds and jumps of the local clock, other than as the arbitrary arrival times the ledger theorems already allow.
- A customer is the device number itself, not its decimal text.
- Torn reads of prices.txt or of shared memory, and overlapping updater runs: each file rewrite, segment write, table transaction and segment read is one step.
- What a write beyond the mapped segment would damage: SharedMemory stops with `ok` false at the first access outside it.
- The creation of a missing shared-memory segment, after which the server keeps its cache: the segment exists from the start here.
- A restart of the server while an updater run is in progress, which writes the price file in the middle of that run: in the protocol the server starts between two updater runs.
- What the server makes of a short last frame, whose missing bytes are uninitialised in the original: Framing marks it and EndToEnd stops there.
- The iteration order of an unordered map is a parameter, over which the theorems quantify.
- Sockets, accept and keepalive, fork and daemons, GPIO, polling, the FIFO and log files: recv outcomes and flags are an input script.
- Menus and prompts, the JSON helpers in server/utils.cpp, RAII wrappers and signal-name logging: no property spans them.
- HAL start-up, interrupt stubs, saturate and rotate helpers, and the copies of the NVIC code in the other core headers.
