# Transmission Network Aggregator — a Dafny model of its core

The Transmission Network Aggregator turns a bus/branch model of a power grid into
a county-to-county transmission capacity table. Buses are placed in counties
through their substations. Branches (AC lines) and DC lines are reduced to one
edge per unordered pair of counties. Each edge carries:

- its summed capacity in MW, its circuit or link count and the summed rating;
- for AC, the summed susceptance and the equivalent reactance;
- the modal county, state, zone and interconnect attributes of its two ends.

A companion visualisation module works on the resulting edge table. It selects
the edges of a region, the counties of that region, and the lines between county
centroids, and it maps capacities to line-width classes.

The model follows the two core files of the repository:

- `grid2county_txcap.py` is modelled in modules `Rules`, `BusLookup`, `Joins`,
  `EdgeMeta`, `AcAggregation` and `HvdcAggregation`;
- `visualize_transmission.py` is modelled in module `Visualize`.

Support modules hold the library behaviour the code relies on:

- `Wrappers`: `Option`, `Result`;
- `StrOps`: Python string order, `str.zfill`, `str.lower` on ASCII, integer-to-text;
- `Tables`: frames, missing cells, boolean-mask selection, column-alias resolution;
- `Grouping`: `groupby` over the sorted county pair, the mode of the non-missing values, sums.

Data frames are sequences of rows, each a map from column label to a cell. A cell
is missing, a number or text. The pandas operations are written as functions
over these. The loops the source writes are Dafny methods:

- `pick_rating`;
- `unordered_pair`, on a 2-column array;
- the two loops of `get_region_counties`;
- the edge loop of `create_transmission_lines_gdf`;
- the row-by-row pipeline of `aggregate_ac`.

Each method is proved equal to the specification function beside it. The
properties are stated as lemmas about those functions:

- capacity is conserved from circuits to edges;
- every edge key is a sorted, strictly ordered county pair;
- each circuit lands in exactly the edge of its pair;
- power-factor bands follow nominal voltage;
- the region and legend rules hold.

## Model

| member | source | states |
|---|---|---|
| Rules.MissingRequiredTables | src/grid2county_txcap.py:92-96 | a table name is reported missing exactly when it is one of bus, branch, sub, bus2sub and no file for it was found |
| Rules.MkPfFromKv | src/grid2county_txcap.py:165-174 | pf is 0.99 exactly for kV ≥ 500−1e-6, and 0.97 exactly for 230−1e-6 ≤ kV < 500−1e-6; otherwise it is 0.95, which includes a missing kV (NaN) |
| Rules.MkPfMonotone | src/grid2county_txcap.py:165-172 | a higher nominal voltage never gets a lower power factor |
| Rules.Ladder | src/grid2county_txcap.py:179-183 | the order in which rating columns are tried, from the case-insensitive preference: "b" and "c" give their own ladders and anything else the "a" ladder; always a permutation of ratea, rateb, ratec |
| Rules.FirstUsable | src/grid2county_txcap.py:184-192 | the first ladder column holding a positive number; none exactly when no column qualifies |
| Rules.FirstUsableOfThree | src/grid2county_txcap.py:184-192 | three rating columns are tried in the order given, and NaN (None) follows when none holds a positive number |
| Rules.RatingFromSomeColumn | src/grid2county_txcap.py:177-192 | whatever the preference, the rating is positive and comes from one of ratea, rateb and ratec, and it is NaN exactly when none of the three holds a positive rating |
| Rules.PickRating | src/grid2county_txcap.py:177-192 | the loop returns the first positive rating along the ladder, or NaN (None) when there is none |
| Rules.RatingTakesPreferred | src/grid2county_txcap.py:179-189 | when the preferred column holds a positive rating, that rating is chosen |
| Rules.RatingSkipsZero | src/grid2county_txcap.py:178-189 | a zero rating means "not specified", so the next column of the ladder is used |
| Rules.Canon | src/grid2county_txcap.py:195-199 | the same two counties with the smaller code first; swapped exactly when the first code sorts after the second |
| Rules.CanonSymmetric | src/grid2county_txcap.py:195-199 | a line and its reverse give the same county pair |
| Rules.CanonIdempotent | src/grid2county_txcap.py:195-199 | ordering an ordered pair again changes nothing |
| Rules.UnorderedPair | src/grid2county_txcap.py:195-199 | the n-by-2 array holds each line's county pair, row by row, smaller code first |
| Rules.FindState | src/grid2county_txcap.py:157-159 | the first state-table entry whose FIPS equals the code |
| Rules.StateAbbrevFromFips | src/grid2county_txcap.py:151-160 | None gives ""; otherwise the code is padded to two digits; that padded code is the result without the state package or for an unknown code, and the first matching state's abbreviation otherwise |
| Rules.StateAbbrevPadsFirst | src/grid2county_txcap.py:154-159 | a one-digit code is padded before the lookup ("6" finds CA) |
| StrOps.ZFill | src/grid2county_txcap.py:154 | as `str.zfill`: the length is max(len, width), the zeros go after a leading sign, and longer text is unchanged |
| StrOps.ZFillIdempotent | src/visualize_transmission.py:73 | padding already padded text again changes nothing |
| StrOps.LexLeTotal | src/grid2county_txcap.py:197 | the string comparison that decides a swap is total |
| StrOps.LexLeAntisymmetric | src/grid2county_txcap.py:197 | two codes that each sort no later than the other are equal |
| StrOps.LexLeTransitive | src/grid2county_txcap.py:197 | the string order is transitive |
| StrOps.LexTrichotomy | src/grid2county_txcap.py:197 | of two different codes exactly one sorts first |
| StrOps.PaddedCodeRoundTrip | src/visualize_transmission.py:73 | a five-digit county code read as an integer and padded back with zfill(5) is the original code |
| Tables.FirstPresent | src/grid2county_txcap.py:228 | the first alias, in the order given, that names a column; none exactly when no alias does |
| Tables.Filter | src/grid2county_txcap.py:371 | a boolean mask keeps exactly the input rows it holds for |
| Tables.FilterNone | src/visualize_transmission.py:140 | a mask that holds for no row selects nothing |
| Tables.FilterAppend | src/grid2county_txcap.py:406-408 | selecting from a concatenation selects from each part in turn |
| Tables.FilterIndices | src/visualize_transmission.py:66 | the kept rows sit at strictly increasing input positions, so a selection keeps the input order |
| Tables.KeepWhere | src/visualize_transmission.py:82-87 | the row loop keeps exactly what the mask keeps, in order |
| Tables.FirstKeyIndex | src/grid2county_txcap.py:309 | the position of the first (index, value) pair whose index entry equals the key, after only pairs with other entries, or the length when there is none |
| Tables.LookupUnique | src/grid2county_txcap.py:309-311 | on an index without repeated entries, the only kind `Series.map` accepts, a lookup gives the value of the one entry equal to the key |
| Tables.ValueLeTotal | src/grid2county_txcap.py:459 | the cell order used to sort group keys and modes is total |
| Tables.ValueLeAntisymmetric | src/grid2county_txcap.py:459 | two cells that each sort no later than the other are equal |
| Tables.ValueLeTransitive | src/grid2county_txcap.py:459 | the cell order is transitive |
| Tables.ValueLeReflexive | src/grid2county_txcap.py:459 | every cell sorts no later than itself |
| Grouping.DominatesTotal | src/grid2county_txcap.py:455-457 | of two candidate modes one is always at least as good |
| Grouping.DominatesTransitive | src/grid2county_txcap.py:455-457 | being at least as good a mode is transitive |
| Grouping.PickMode | src/grid2county_txcap.py:457 | the winner comes from the column and is at least as good as every non-missing value scanned |
| Grouping.FirstNonNull | src/grid2county_txcap.py:456 | the first non-missing value, after only missing ones |
| Grouping.ModeNonNull | src/grid2county_txcap.py:455-457 | missing exactly when every value is missing; otherwise a value of the column that occurs at least as often as any other non-missing value, the smallest on a tie |
| Grouping.ModeIsUnique | src/grid2county_txcap.py:455-457 | a value that beats every non-missing value is the mode |
| Grouping.ModeText | src/grid2county_txcap.py:466-475 | the same mode for text attributes such as county names |
| Grouping.OccOfText | src/grid2county_txcap.py:466-475 | wrapping text as cells keeps every value's count |
| Grouping.PairTrichotomy | src/grid2county_txcap.py:459 | two county pairs compare as less, equal or greater, and only one way |
| Grouping.PairLtTransitive | src/grid2county_txcap.py:459 | the order on county pairs is transitive |
| Grouping.ConsSorted | src/grid2county_txcap.py:459 | a pair smaller than every key of a sorted list extends it to a sorted list |
| Grouping.InsertKey | src/grid2county_txcap.py:459 | inserting a key keeps the list strictly sorted and adds exactly that key |
| Grouping.SortedKeys | src/grid2county_txcap.py:459 | the distinct group keys, strictly sorted: every row's key and only those |
| Grouping.GroupByKeysSorted | src/grid2county_txcap.py:459 | the groups come in strictly increasing key order, so no key has two groups |
| Grouping.GroupByMembers | src/grid2county_txcap.py:459 | each group is non-empty and holds only input rows with its key |
| Grouping.GroupByCovers | src/grid2county_txcap.py:459 | every input row is in the group of its key |
| Grouping.GroupImageCovers | src/grid2county_txcap.py:459 | after summarising every group by a key-keeping function, every input row's key has an entry |
| Grouping.GroupByTotal | src/grid2county_txcap.py:459-463 | summing a column per group and then over the groups gives the column total |
| Grouping.GroupBySizes | src/grid2county_txcap.py:461 | the group sizes add up to the number of rows |
| Grouping.GroupByPairsOrdered | src/grid2county_txcap.py:459 | when every row key lists the smaller county first (strictly, for cross-county rows), so does every group key, and the groups come in strictly increasing key order |
| Grouping.GroupBySingle | src/grid2county_txcap.py:459 | one row gives one group, keyed by that row's key |
| BusLookup.KeepFirstDistinct | src/grid2county_txcap.py:251 | `drop_duplicates(keep='first')` leaves distinct bus ids and only pairs of the mapping |
| BusLookup.KeepFirstLookup | src/grid2county_txcap.py:251 | after deduplication every bus maps to the substation of its first row |
| BusLookup.KeepFirstNoDuplicates | src/grid2county_txcap.py:244-255 | without repeated bus ids the mapping is used unchanged |
| BusLookup.KeepFirstExample | src/grid2county_txcap.py:244-251 | a bus listed twice keeps its first substation |
| BusLookup.BusMap | src/grid2county_txcap.py:244-255 | the bus map has distinct bus ids and answers every lookup as the first bus2sub row would |
| BusLookup.FirstSubIndex | src/grid2county_txcap.py:276-278 | the first sub row whose key equals the substation id, after only rows with other keys; once the lookup succeeds it is the only such row (CountyFromSubstation) |
| BusLookup.LocalColumns | src/grid2county_txcap.py:281-292 | the enriched bus table has a bus_id column and keeps every bus column except a renamed bus |
| BusLookup.BuildBusLookup | src/grid2county_txcap.py:202-357 | it fails with each of the source's five errors exactly under its own condition, in the source's order: no substation column in bus2sub, no geopandas, no lon/lat, a repeated substation key (or, past the zone column check, a repeated zone id in a zone table used for names or interconnects), a zone column in sub without sub_id; on success it has one enriched row per bus, and the fips series pairs each bus id with its county code |
| BusLookup.BusIdRule | src/grid2county_txcap.py:280-289 | a bus takes its id from bus_id, else from bus, else from its position, and keeps its own cells |
| BusLookup.FirstSubstationWins | src/grid2county_txcap.py:251-292 | without its own sub_id a bus gets the substation of the first bus2sub row listing it, else none |
| BusLookup.CountyFromSubstation | src/grid2county_txcap.py:262-311 | a bus's county code, name and state are those of the polygon its substation lies in; they are missing when the substation is unknown or in no county; the matching sub row is the only one with that key |
| BusLookup.SubIdKeyCol | src/grid2county_txcap.py:271 | with a sub_id column, the county maps are indexed by sub_id |
| BusLookup.ZoneFromSubTable | src/grid2county_txcap.py:314-317 | with a zone_id (else zone) column in sub, a bus gets the zone of the one sub row whose sub_id is its substation |
| BusLookup.ZoneFromBusOrMissing | src/grid2county_txcap.py:318-321 | without a zone column in sub, a bus keeps its own zone_id, and has none when the bus table has none |
| BusLookup.ZoneAttrFromZoneTable | src/grid2county_txcap.py:324-343 | with a zone table holding zone_name (or interconnect) and a zone id column, a bus gets the attribute of the one zone row with its zone id |
| BusLookup.NoZoneTableNoNames | src/grid2county_txcap.py:323-343 | without a zone table, zone names and interconnects are missing |
| Joins.FirstBusIndex | src/grid2county_txcap.py:402-405 | the position of the first enriched row with the bus id, after only rows with other ids, or the length when there is none |
| Joins.MetaOf | src/grid2county_txcap.py:402-405 | a line end whose bus is not in the enriched table gets no attributes; a bus listed once gets the attributes of its row |
| Joins.BusNumber | src/grid2county_txcap.py:428-433 | the voltage looked up for a bus is NaN (None) when the bus is not in the enriched table, and the number in its row when it is listed once |
| Joins.JoinAndLocate | src/grid2county_txcap.py:402-408 | exactly the joined branches with both ends in a county, and in different counties unless intra-county lines are kept |
| Joins.LocateCircuits | src/grid2county_txcap.py:402-408 | the two merges, the dropna and the intra-county filter, done step by step, give exactly the located circuits |
| Joins.NoBusesNoCircuits | src/grid2county_txcap.py:402-408 | with an empty bus table no branch end finds a county, so no circuit is left |
| Joins.JoinedFromRows | src/grid2county_txcap.py:402-405 | each joined circuit is an input row carrying the attributes of its from bus and to bus |
| Joins.EndsFollowPair | src/grid2county_txcap.py:451 | after orientation the From_ end lies in the pair's first county and the To_ end in its second |
| Joins.PairOfCross | src/grid2county_txcap.py:407-408 | a cross-county line's key holds two different counties, the smaller first |
| EdgeMeta.StateColumn | src/grid2county_txcap.py:483-484 | a missing state FIPS gives ""; otherwise, without a state table, the code zero-padded to two characters; with one, the abbreviation of the first record whose code equals the padded code, or the padded code itself when no record has it |
| EdgeMeta.StateColumnAsWritten | src/grid2county_txcap.py:483-484 | as written, a present state FIPS gives the corrected state column, and a missing one with no state table gives "<NA>" |
| EdgeMeta.SummariseAsWritten | src/grid2county_txcap.py:466-484 | the as-written attributes agree with the corrected ones except in the two state columns, and in those wherever that side has a state FIPS |
| EdgeMeta.SummariseMissing | src/grid2county_txcap.py:455-475 | a side's county name is missing exactly when every end on that side lacks one, otherwise it is a name of one of its ends; its zone is missing exactly when every end's zone is |
| EdgeMeta.StateColumnAsWrittenShowsNA | src/grid2county_txcap.py:483-484 | as written, a missing state FIPS comes out as "<NA>", where the corrected column gives "" |
| EdgeMeta.StateColumnEmptyIff | src/grid2county_txcap.py:483-484 | the corrected state column is empty exactly when the state FIPS is missing |
| EdgeMeta.Orient | src/grid2county_txcap.py:466-475 | the two ends' attributes, either as given or swapped |
| EdgeMeta.OrientFollowsPair | src/grid2county_txcap.py:466-475 | the first end after orientation lies in the pair's first county, the second in its second |
| AcAggregation.InService | src/grid2county_txcap.py:368-372 | keeps exactly the rows whose first status column (br_status, else status) is 1; without either column, all rows |
| AcAggregation.DropTransformers | src/grid2county_txcap.py:374-376 | with the exclusion on and a ratio column, keeps exactly the rows whose ratio is missing or 0; otherwise all rows |
| AcAggregation.Need | src/grid2county_txcap.py:378-396 | each of fbus/from_bus_id, tbus/to_bus_id and x is listed exactly when no alias for it is present, in the source's order |
| AcAggregation.PfRuleOf | src/grid2county_txcap.py:418-445 | the constant rule exactly for a mode starting with "const:"; the voltage rule exactly for "bykv" with a voltage column, which is one of base_kv/basekv/kv present in the bus table; otherwise no conversion |
| AcAggregation.PfRuleConstExamples | src/grid2county_txcap.py:418-424 | `const:0.9` uses 0.9, and a factor that does not parse (`const:abc`) uses 1.0 |
| AcAggregation.PfRuleByKvExamples | src/grid2county_txcap.py:425-445 | `bykv` uses the first of base_kv/basekv/kv the bus table has, none without one; any other mode uses none |
| StrOps.ParseDecimalExamples | src/grid2county_txcap.py:420 | `float("0.9")` is 0.9 and `float("abc")` fails |
| AcAggregation.NanMin | src/grid2county_txcap.py:434 | the smaller of the present values, missing only when both are (the intended nanmin) |
| AcAggregation.Susceptance | src/grid2county_txcap.py:448 | B is present exactly when x is a non-zero number, and then B·x = 1 |
| AcAggregation.ContributionOf | src/grid2county_txcap.py:410-448 | a circuit's rating is picked from its normalised rate columns, and its B from x |
| AcAggregation.Joined | src/grid2county_txcap.py:398-408 | the joined circuits are located, cross-county unless kept, and come from the filtered rows |
| AcAggregation.Circuits | src/grid2county_txcap.py:366-448 | fails exactly when required columns are missing, with those columns; otherwise one contribution per joined circuit |
| AcAggregation.Reciprocal | src/grid2county_txcap.py:478 | x_eq is present exactly when ΣB ≠ 0, and then x_eq·ΣB = 1 |
| AcAggregation.EdgeOf | src/grid2county_txcap.py:459-480 | the edge of a group is keyed by the group's county pair and counts its circuits |
| AcAggregation.EdgeOfAsWritten | src/grid2county_txcap.py:451-480 | as written, a group's edge agrees with the corrected one in every column but the From_/To_ attributes |
| AcAggregation.AggregateAc | src/grid2county_txcap.py:360-491 | the aggregation fails exactly when required branch columns are missing, naming them |
| AcAggregation.AggregateAcAsWritten | src/grid2county_txcap.py:360-491 | as written, it also fails (in `np.nanmin`) exactly when the voltage rule applies and a circuit remains; otherwise it gives the corrected edges, the same in number and in every column but the attributes |
| AcAggregation.RunAggregateAc | src/grid2county_txcap.py:360-491 | the step-by-step pipeline computes exactly the aggregate |
| AcAggregation.KeepInService | src/grid2county_txcap.py:368-376 | the status filter then the transformer filter leave exactly the rows of the filtered branch table, in order |
| AcAggregation.CircuitsLocated | src/grid2county_txcap.py:406-408 | every contribution has both ends in counties, and different counties unless kept |
| AcAggregation.CircuitsInService | src/grid2county_txcap.py:366-376 | every contribution comes from a branch row that is in service and, when transformers are excluded, has no tap ratio |
| AcAggregation.TransformersExcluded | src/grid2county_txcap.py:374-376 | with the exclusion on, no circuit with a non-zero ratio contributes |
| AcAggregation.TransformersKept | src/grid2county_txcap.py:374-376 | with the exclusion off, the filter keeps every row |
| AcAggregation.ConstModeScales | src/grid2county_txcap.py:418-424 | in constant mode, capacity is rating × pf and pf_used is pf for every circuit |
| AcAggregation.ByKvModeBands | src/grid2county_txcap.py:425-438 | in bykv mode, kv_min is the nanmin of the two bus voltages, pf_used is its band's pf (0.95/0.97/0.99), and capacity is rating × pf |
| AcAggregation.NoPfModeKeepsRating | src/grid2county_txcap.py:439-445 | without a pf rule, capacity is the rating and pf_used is 1.0 |
| AcAggregation.EdgesOrdered | src/grid2county_txcap.py:459-482 | the edges come in strictly increasing county-pair order, From_fips before To_fips, strictly for cross-county lines |
| AcAggregation.AcEdgesOrdered | src/grid2county_txcap.py:459-482 | the same for the whole aggregation |
| AcAggregation.EdgeMembers | src/grid2county_txcap.py:459-478 | edge i counts and sums exactly the contributions of its pair, and there is at least one |
| AcAggregation.AcEdgeMembers | src/grid2county_txcap.py:459-478 | the same for the whole aggregation, including x_eq = 1/ΣB |
| AcAggregation.AcCircuitCovered | src/grid2county_txcap.py:459 | every contribution lands in the edge of its county pair |
| AcAggregation.AcCapacityConserved | src/grid2county_txcap.py:459-461 | total edge capacity equals total circuit capacity, and the edge circuit counts add up to the number of circuits |
| AcAggregation.EdgesConserve | src/grid2county_txcap.py:459-461 | for any contributions, the edge capacities add up to the circuit capacities and the circuit counts to their number |
| AcAggregation.FromCountyNamesFromFips | src/grid2county_txcap.py:466 | a From_County name is the name of a circuit end that lies in From_fips |
| AcAggregation.EdgeFromCounty | src/grid2county_txcap.py:466 | for any located contributions, a present From_County is the county name of a member end lying in From_fips |
| AcAggregation.MissingStateShowsNA | src/grid2county_txcap.py:468-484 | with no state FIPS on any end, the as-written edge shows "<NA>" states and the corrected edge empty ones |
| EdgeMeta.SummariseNoStatefp | src/grid2county_txcap.py:468-484 | when no end has a state FIPS, the state columns are "<NA>" as written and "" corrected |
| AcAggregation.FromCountyAsWrittenMismatch | src/grid2county_txcap.py:451-466 | a line from 48003 to 48001: as written, From_fips is 48001 but From_County names the county of 48003; corrected, it names 48001's |
| AcAggregation.SingleFromCounty | src/grid2county_txcap.py:451-466 | for a one-circuit edge, From_County is the origin bus's county name as written and the name of the end in the pair's first county when corrected |
| AcAggregation.ModeTextSingle | src/grid2county_txcap.py:457 | the mode of one present value is that value |
| AcAggregation.ByKvExampleCircuit | src/grid2county_txcap.py:425-448 | a branch between a 500 kV and a 230 kV bus, rated 1000 MVA with x = 0.1, contributes pf 0.97 (the band of the lower voltage), 970 MW and B = 10 |
| AcAggregation.SingleCircuitEdge | src/grid2county_txcap.py:459-480 | a one-circuit group gives an edge with its capacity, one circuit and x_eq = 1/B |
| AcAggregation.OneCircuitOneEdge | src/grid2county_txcap.py:459-480 | a single contribution yields a single edge |
| AcAggregation.AcEdgesSingle | src/grid2county_txcap.py:459 | one circuit gives one group |
| AcAggregation.ByKvExampleEdge | src/grid2county_txcap.py:425-480 | corrected, that branch gives one edge 08031–08059 with 970 MW, one circuit and x_eq 0.1 |
| AcAggregation.ByKvExampleAsWrittenRaises | src/grid2county_txcap.py:432-434 | as written, the same input raises in `combine(..., np.nanmin)` |
| HvdcAggregation.ResolveDc | src/grid2county_txcap.py:501-514 | each of f_bus, t_bus and pmax resolves to its first present alias; the result is None exactly when one of them has none |
| HvdcAggregation.LinksInService | src/grid2county_txcap.py:516-518 | with a status column, exactly the rows whose status is 1; otherwise all rows |
| HvdcAggregation.DcCircuits | src/grid2county_txcap.py:523-533 | the joined links are located, and cross-county unless intra-county ones are kept |
| HvdcAggregation.AggregateHvdc | src/grid2county_txcap.py:497-560 | None exactly without a DC table, with an unresolved column, or with no in-service link |
| HvdcAggregation.AggregateHvdcAsWritten | src/grid2county_txcap.py:497-560 | as written, None in exactly the same cases, and otherwise the corrected edges, the same in number and in every column but the attributes |
| HvdcAggregation.HvdcEdgeOfAsWritten | src/grid2county_txcap.py:535-560 | as written, a group's edge agrees with the corrected one in every column but the From_/To_ attributes |
| HvdcAggregation.PmaxOf | src/grid2county_txcap.py:542 | a link adds its pmax number to the sum, and a missing pmax adds 0, as `sum` skips NaN |
| HvdcAggregation.LinkEdgesOrdered | src/grid2county_txcap.py:542-558 | the links' edges come in strictly increasing pair order, From_fips before To_fips |
| HvdcAggregation.HvdcEdgesOrdered | src/grid2county_txcap.py:542-558 | the same for the whole aggregation |
| HvdcAggregation.HvdcEdgeMembers | src/grid2county_txcap.py:542-544 | edge i counts and sums the pmax of exactly the links of its pair, and there is at least one |
| HvdcAggregation.HvdcCapacityConserved | src/grid2county_txcap.py:542-544 | total edge capacity equals total pmax of the located links, and the n_links add up to their number |
| HvdcAggregation.LinkMembers | src/grid2county_txcap.py:542-544 | for any links, edge i counts and sums the pmax of exactly the links of its pair, and there is at least one |
| HvdcAggregation.LinkTotals | src/grid2county_txcap.py:542-544 | for any links, the edge capacities add up to their total pmax and the n_links to their number |
| HvdcAggregation.HvdcLinkCovered | src/grid2county_txcap.py:542 | every located link lands in the edge of its pair |
| HvdcAggregation.OneLinkColumns | src/grid2county_txcap.py:502-513 | a table with f_bus, t_bus, pmax and status resolves to those columns |
| HvdcAggregation.OutOfServiceGivesNone | src/grid2county_txcap.py:516-521 | when no link is in service, the result is None |
| HvdcAggregation.UnlocatedLinkGivesEmpty | src/grid2county_txcap.py:523-542 | an in-service link whose buses are in no county gives an empty edge list, not None |
| HvdcAggregation.UnlocatedLinksGiveEmpty | src/grid2county_txcap.py:523-542 | with an empty bus table, any in-service DC table gives an empty edge list, not None |
| Visualize.Pad5 | src/visualize_transmission.py:73 | `str(fips).zfill(5)` has at least five characters |
| Visualize.Pad5RestoresCode | src/visualize_transmission.py:73 | a five-digit code stored as an integer is padded back to the same code |
| Visualize.ParseRegionType | src/visualize_transmission.py:51-64 | zone, state and interconnect are recognised exactly by their lower-cased names |
| Visualize.FilterRegionEdges | src/visualize_transmission.py:39-66 | an unknown region type is an error carrying that type; otherwise exactly the edges whose From or To attribute of that type equals the name |
| Visualize.FilterRegionKeepsOrder | src/visualize_transmission.py:66 | the kept edges keep their input order |
| Visualize.RegionTypeIgnoresCase | src/visualize_transmission.py:51-64 | "State" and "STATE" select as "state" does, and "county" is rejected |
| Visualize.ImageMembers | src/visualize_transmission.py:71-74 | a code is in the set built by the loop exactly when some element produces it |
| Visualize.ImageSnoc | src/visualize_transmission.py:72-74 | one loop step adds exactly that element's code to the set |
| Visualize.PairImageMembers | src/visualize_transmission.py:81-87 | a prefix is in the set exactly when a matching edge has it at one of its ends |
| Visualize.PairImageSnoc | src/visualize_transmission.py:82-87 | one loop step adds an edge's two prefixes when it matches, and nothing otherwise |
| Visualize.StatePrefixesMembers | src/visualize_transmission.py:81-87 | the state prefixes are exactly those of an end of an edge whose From_state or To_state is the name |
| Visualize.GetRegionCounties | src/visualize_transmission.py:68-93 | the two loops and the selections compute exactly the region counties |
| Visualize.CollectCodes | src/visualize_transmission.py:71-74 | the loop collects exactly the set of padded five-digit codes of the end cells |
| Visualize.CollectStateParts | src/visualize_transmission.py:79-86 | the loop collects exactly the state parts of both ends of the edges with an end in the named state |
| Visualize.ConcatImageMembers | src/visualize_transmission.py:72 | a code comes from the From list followed by the To list exactly when it comes from some edge's From or To cell |
| Visualize.EndCodesMembers | src/visualize_transmission.py:72-74 | the padded code set is exactly the padded From/To codes of the edges |
| Visualize.RegionCountiesExact | src/visualize_transmission.py:68-93 | a county is selected exactly when its GEOID is an edge end's padded code; for a state region with matching edges, its state prefix must also be that of a matching edge |
| Visualize.CentroidsLastWins | src/visualize_transmission.py:118 | a GEOID has a centroid exactly when some county has it, and that of the last such county |
| Visualize.CentroidsAreLast | src/visualize_transmission.py:118 | every centroid in the map is that of the last county with its GEOID |
| Visualize.LinesJoinCentroids | src/visualize_transmission.py:118-138 | there are never more lines than edges, and each line joins the centroids of the last counties with its two padded codes |
| Visualize.CreateTransmissionLines | src/visualize_transmission.py:95-147 | the edge loop, with its early empty return, computes exactly the lines |
| Visualize.PlaceLines | src/visualize_transmission.py:120-138 | the edge loop appends exactly the lines of the edges whose two padded codes have a centroid, in edge order |
| Visualize.LinesStep | src/visualize_transmission.py:122-138 | one loop step appends that edge's line exactly when both its ends are placed |
| Visualize.NoLinesWithoutInput | src/visualize_transmission.py:102-107 | no counties or no edges give no lines |
| Visualize.LinesExactlyPlaced | src/visualize_transmission.py:120-147 | one line per edge with both ends placed, in edge order, and none for other edges |
| Visualize.FilterIndicesCover | src/visualize_transmission.py:126 | every edge with both ends placed has a position among the kept positions |
| Visualize.BandOf | src/visualize_transmission.py:154-165 | the band index lies in 0..5 |
| Visualize.CapacityClassInfo | src/visualize_transmission.py:149-165 | every class given to a line is an entry of the legend, and a NaN capacity gets the top class |
| Visualize.CapacityClasses | src/visualize_transmission.py:167-176 | the legend has six classes |
| Visualize.BandValues | src/visualize_transmission.py:154-165 | the band boundaries are 200, 500, 1000, 2000 and 5000 MW, each lower bound inclusive |
| Visualize.ClassInfoInLegend | src/visualize_transmission.py:149-176 | a capacity's width, alpha and label are exactly the legend entry of its band; a NaN capacity falls in the top class |
| Visualize.ClassInfoMonotone | src/visualize_transmission.py:154-165 | more capacity never gives a thinner or fainter line |
| Visualize.LegendAscending | src/visualize_transmission.py:167-176 | legend labels are distinct, and widths and alphas strictly increase |
| Visualize.LegendEntriesReached | src/visualize_transmission.py:149-176 | every legend entry is the class of the bottom of its band |

## Left out

- File discovery and reading, command-line handling, writing the output table, and all plotting are left out. The only file-system fact kept is which required tables were found, as a set of names.
- The point-in-polygon join of substations to counties is abstracted as the parameter `locate`, a row-to-county function. Reprojection and CRS handling go with it. So does the centroid computation: each county carries its centroid as data.
- Whether geopandas is installed is a boolean parameter. The `us` package's state table is an optional parameter.
- Zero-padding in the visualisation, as `str(fips).zfill(5)`, is modelled for integer codes and for text. Float-typed codes such as `1001.0` are not modelled.
- `float()` of text cells is modelled for plain decimals: an optional sign, then digits with at most one point. Exponents, surrounding whitespace, underscores, "inf" and "nan" are treated as unparsable, so the rating loop skips them.
- `str.lower` is modelled on ASCII letters only.
- The `pf_used_med` and `kv_min_med` medians are not modelled, since they need floating-point order statistics; the per-circuit `pf_used` and `kv_min` that they summarise are modelled. The `kv_min_med` fallback to a size count (line 465) goes with them.
- Column housekeeping after the bus merge is not modelled: suffix cleanup, duplicate-label dropping, and alias columns that duplicate bus_id (lines 295-306 and 345-354). The enriched table is a fixed record per bus.
- The informational `print` calls and the count of multi-substation buses are left out (lines 244-253). The deduplication they guard is modelled, because it is the identity when there are no duplicates.
- The `except` branch of `mk_pf_from_kv`, which returns 1.0, is left out. The model's voltage is a number or missing, and a comparison with NaN returns the 0.95 band rather than raising.
- The CRS of the empty frames that `create_transmission_lines_gdf` returns is left out, along with all geometry objects; a line is a pair of points.
- Column ordering and selection of the final frames (`keep` lists) is not modelled; an edge is a record with every output field.
- AcAggregation.Susceptance: a text cell in the `x` column makes the source's `1.0 / br["x"]` raise; the model reads text as a missing number and gives no B, because its cells carry no column dtype.
- HvdcAggregation.PmaxOf: a text cell in the pmax column makes the source's `sum` fail or concatenate; the model adds 0 for it, as for a missing cell, for the same reason.
- Joins.BusNumber: a text voltage cell reaches `np.nanmin` and `mk_pf_from_kv` in the source; the model reads it as NaN, giving the 0.95 band.
- AcAggregation.PfRuleOf: a constant factor written with an exponent or with surrounding spaces ("const:9e-1", "const: 0.9"), with underscores ("const:1_0"), or as "nan", "inf" or "infinity" is parsed by Python's `float`, so the source multiplies by that value (NaN or infinity for the last forms); the model's decimal reader does not accept these forms and uses the 1.0 fallback.
- Joins.FirstBusIndex: a bus id that repeats in the enriched bus table (a bus table with repeated ids) makes the source's left merges at lines 402-405 and 526-529 give one joined row per match, and the voltage `map` at lines 432-433 raise; the model joins each line end with the first such row only.
- Joins.MetaOf: the same repeated bus id case, for the attributes of a line end.
- AcAggregation.Reciprocal: x_eq is undefined (None) when ΣB = 0, where pandas would give ±inf, because the model has no infinities.
- Grouping.ModeNonNull: ties are broken by the smallest value, as pandas' sorted `mode()` followed by `.iloc[0]` does, not by first occurrence.

## Findings

| source | as written | input that shows it | evidently intended | confidence | as-written member | corrected member |
|---|---|---|---|---|---|---|
| src/grid2county_txcap.py:432-434 | `kv_f.combine(kv_t, np.nanmin)` calls `np.nanmin(a, b)`, which reads b as an axis, so any non-empty branch table in bykv mode raises | one in-service branch between buses at 500 kV and 230 kV, pf_mode "bykv" | the smaller of the two voltages, ignoring a missing one, then the power-factor band of that voltage | not executed | AcAggregation.AggregateAcAsWritten | AcAggregation.AggregateAc |
| src/grid2county_txcap.py:451,466-475,535-553 | From_/To_ attributes are the modes of the from-bus and to-bus attributes, while From_fips/To_fips are the sorted pair, so a line whose from county sorts second gets the other county's name, state, zone and interconnect | a single line from 48003 (Andrews) to 48001 (Anderson) | From_* attributes describe the county in From_fips | not executed | AcAggregation.EdgeOfAsWritten | AcAggregation.EdgeOf |
| src/grid2county_txcap.py:483-484,559-560 | the modal state FIPS is cast to the "string" dtype before `state_abbrev_from_fips`, so a missing value arrives as pd.NA, not None, and comes out as "<NA>" | an edge whose ends have no state FIPS, with no state package | an empty state, as the None branch of `state_abbrev_from_fips` gives | not executed | EdgeMeta.StateColumnAsWritten | EdgeMeta.StateColumn |
