# Agent-based epidemic engine, modelled in Dafny

The repository simulates a respiratory infection (ОРВИ) spreading through a
population. Each person moves through the states healthy → exposed →
infected → cured. An exposed person becomes infected after an incubation
time. An infected person is cured after a base duration shifted by its
immunity tag (low +1 day, medium 0, strong −1). Each day:

- the population is grouped by status and the four counts are recorded;
- the earliest day with the most infected people is tracked;
- the run stops after recording a day with nobody exposed or infected, or
  with nobody healthy;
- otherwise every person is advanced by one day, and each person infected
  at the start of the day makes up to two contacts with people drawn
  without replacement from the shuffled list of those healthy at the start
  of the day;
- a contact exposes its target when a random draw falls below the
  infection probability.

The engine exists in four variants, each modelled in its own module:

| module | source | form |
|---|---|---|
| `Models` | `models.py` (the current version) | classes `Person`, `Population`, `AgentBasedModel`. Cured people become healthy again on their next update. Incubation 2, base duration 6, probability 0.12. Contacts are popped from the end of the shuffled list. |
| `MainSim` | `main.py` | classes `Person`, `Population`, `Simulation`. Cured is terminal. The base duration is one value in [5, 7] drawn at start-up. Probability 0.1. Contacts are popped from the end. |
| `Sari` | `S.A.R.I.py` | dictionary records in a list, free functions. The base duration is one value in [5, 6]. The probability is 0.1 adjusted by the infector's immunity (0.13 / 0.10 / 0.07). Contacts walk the shuffled list from the front. |
| `AgentModel` | `agent_model.py` | the five-state rewrite (susceptible, exposed, infected, recovered, vaccinated) of one person, with per-person incubation and infectious periods. |

Three shared modules hold what the variants have in common:

- `Epidemic` has the statuses, immunity tags, status counting and
  positions, the `group_by_status` grouping predicate and the random
  oracle.
- `Contact` has the shuffle, which healthy persons the trials target, and
  the set of persons a sequence of trials hits.
- `History` has the per-day counts, the history dictionary, the stop
  condition, earliest-peak tracking and monotone histories.

Every state-changing method is specified against a pure function of the
old state. For example, `Population.Update` ensures that the new person
states equal `Step(old states, permutation, draws)`. The properties are
lemmas about those functions. A whole run is specified by `Trace` and
`RunLength`, which say which days are recorded and when the loop stops. It
is also specified by `Peak`, which is shown to be the earliest maximum.

Randomness is an input:

- `Rng.shuffle(day)(n)` is the permutation `random.shuffle` applies to the
  n healthy persons on that day. `ValidRng` requires it to be a permutation.
- `Rng.coin(day)(k)` is the value of the k-th `random.random()` of that day.
- `random.sample` is a list of distinct chosen indices.
- `random.choice` of the immunity tags is a list of immunities, one per
  person.
- The start-up `random.randint` of `main.py` and `S.A.R.I.py` is a constant
  `BASE_DURATION` of a subset type (5..7 or 5..6). Its value is left open,
  so every proof holds for each possible draw.

## Model

| member | source | states |
|---|---|---|
| Epidemic.ImmunityEffect | models.py:29 | Maps the immunity tags low, medium and strong to +1, 0 and −1 days. |
| Epidemic.Positions | models.py:83-87 | Lists exactly the indices whose status is s, in increasing order and without repeats. Its length is the count of s. |
| Epidemic.CountsPartition | models.py:90-91 | The four status counts sum to the population size. |
| Epidemic.CountIsCardinality | models.py:83-87 | The count of a status is the size of the set of indices with that status. |
| Epidemic.DistinctCardinality | models.py:54-55 | A list of distinct sampled indices has as many members as its set. |
| Epidemic.CountMonotone | main.py:55-63 | If every entry of status s keeps status s, the count of s cannot fall. |
| Epidemic.NoneCounted | models.py:68 | A status no entry has is counted 0 times. |
| Epidemic.GroupingStep | models.py:85-86 | Appending the next person to its status's list keeps the grouping invariant of the prefix. |
| Epidemic.PositionsAppend | models.py:85-86 | Appending a status adds its index to exactly that status's position list. |
| Contact.PopTargets | models.py:69-74 | The targets `pop()` takes from the end of the shuffled healthy list: min(2·spreaders, healthy) of them, all healthy at the start of the day, all distinct. |
| Contact.FrontTargets | S.A.R.I.py:63-70 | The targets `contact_index` walks from the front of the shuffled healthy list: the same count, all healthy, all distinct. |
| Contact.TrialCount | models.py:70-73 | Definition, which has no contract of its own: min(2·spreaders, pool), the number of contacts one call makes. Each spreader takes two targets and the loop stops when the pool is empty. Contact.PopTargets and Contact.FrontTargets state this count. |
| Contact.ShuffleDistinct | models.py:69 | Shuffling a list of distinct persons keeps them distinct. |
| Contact.HitsStep | models.py:74-79 | One more trial adds its target to the hit set exactly when it succeeds; with distinct targets that target was not hit before. |
| Contact.HitsBound | models.py:70-79 | t trials hit at most t persons. With distinct targets they hit exactly as many as the trials that succeed, so `new_infections` counts persons. |
| History.CountsOf | models.py:116-120 | The four daily counts of a population sum to its size. |
| History.Record | models.py:122-125 | Appending a day keeps the four lists equally long, adds that day's counts and leaves earlier days alone. |
| History.Stops | models.py:136 | Definition, which has no contract of its own: the day's counts stop the run when nobody is exposed or infected, or nobody is healthy. Its use is stated by the RunLengthStops lemmas of each run. |
| History.Peak | models.py:127-129 | Definition, which has no contract of its own: peak tracking from (0, 0) over the infected list, with a strict `>` update. History.PeakIsEarliest and History.PeakCharacterization state what it computes. |
| History.ColumnAppend | models.py:122-125 | Recording a day appends its count to each status's list. |
| History.HistoryOfColumn | models.py:122-125 | The list of a status in the history of some days is that status's column. |
| History.RecordHistoryOf | models.py:122-125 | Recording one more day is the history of the days plus that day. |
| History.HistoryOfDays | models.py:122-125 | The history of n days is well formed, has n days, and day d holds the d-th counts. |
| History.PeakExtend | models.py:127-129 | The strict `infected > max_infected` update keeps (peak_day, max_infected) the earliest maximum when a day is appended. |
| History.PeakUnique | models.py:127-129 | A list has at most one earliest peak. |
| History.PeakAppend | models.py:127-129 | Tracking one more day is one more peak update. |
| History.PeakIsEarliest | models.py:110-111 | The fold from (0, 0) gives the earliest day of maximum infected, and day 0 when nobody is ever infected. |
| History.PeakCharacterization | models.py:127-129 | (day, m) is the earliest peak if and only if it is what the tracking loop computes. |
| History.HistoryMonotoneOf | main.py:134-137 | If day counts never gain healthy people or lose cured ones, the recorded healthy list never rises and the cured list never falls. |
| Models.CureDays | models.py:38-41 | Cure days are 7, 6 and 5 for low, medium and strong immunity. |
| Models.CureDay | models.py:40 | Definition, which has no contract of its own: base_duration 6 plus the immunity effect is the days_infected value that cures. Models.CureDays states its three values. |
| Models.Advance | models.py:33-47 | Definition, which has no contract of its own: update_infections on one person's fields. Models.ExposedTimeline, InfectedTimeline, CuredRecovers and HealthyUnchanged state each branch. |
| Models.Expose | models.py:77-78 | Definition, which has no contract of its own: a successful contact sets the status to exposed and the incubation to 0. Models.ExposeTargetsHits and StepEffect state its effect. |
| Models.ExposedTimeline | models.py:34-37 | An exposed person's incubation counter rises by 1 per update. It stays exposed until the counter reaches 2 and becomes infected on that update. Nothing else changes. |
| Models.InfectedTimeline | models.py:38-41 | An infected person's days_infected rises by 1 per update. It stays infected until the count reaches base duration + immunity effect and is cured on that update. |
| Models.CuredRecovers | models.py:42-47 | A cured person with _cured_time ≤ 0 becomes healthy on its next update, with days_infected and incubation reset to 0. |
| Models.HealthyUnchanged | models.py:33-47 | A healthy person is unchanged by an update, and no update raises _cured_time. |
| Models.InfectionCourse | models.py:30-47 | After exposure a person is exposed for 1 update and infected from update 2 to update 1 + cure day. It is cured on update 2 + cure day and healthy again, with zeroed counters, on the next. |
| Models.IterateAdd | models.py:33 | k updates followed by j updates are k + j updates. |
| Models.ExposeTargetsHits | models.py:74-78 | After t trials, a person is exposed with incubation 0 exactly when one of the first t trials hit it; otherwise it is unchanged. |
| Models.Step | models.py:58-80 | Definition, which has no contract of its own: Population.update on the persons' fields. It advances everyone, then applies the popped trials in order. Models.StepEffect and NewInfectionsBound state its effect. |
| Models.StepEffect | models.py:58-80 | Population.update keeps the population size. Each newly exposed index was healthy at the start of the call and is now exposed with incubation 0. Every other person is advanced by exactly one update_infections. |
| Models.NewInfectionsBound | models.py:58-80 | The number of newly exposed persons equals the number of successful trials and is at most 2·infected₀ and at most healthy₀. |
| Models.NoSpreadersNoExposure | models.py:68 | With nobody infected at the start of the call, nobody is exposed and the step only advances each person. |
| Models.InitialCounts | models.py:51-55 | A new population has size persons: exactly infected_count exposed, the rest healthy, none infected or cured. |
| Models.Evolve | models.py:115-140 | The persons after d days of the run, one Population.update per day; the number of persons is kept. |
| Models.Trace | models.py:116-125 | The counts series of the first n days, of length n. |
| Models.RunLength | models.py:115-138 | The number of days the run records: never below the day already reached, and at most days. |
| Models.TraceAt | models.py:115-125 | Day d of the recorded series is the population's counts after d updates. |
| Models.TraceStep | models.py:122-125 | Recording one more day appends exactly that day's counts to the series. |
| Models.RunLengthStops | models.py:136-138 | No recorded day other than the last one satisfies the stop condition. When the run ends before `days`, its last day does. |
| Models.RunEnd | models.py:115-143 | When the loop leaves (stopped on day `day`, or after all days), the recorded length is day + 1 or `days`. |
| Models.UpdatedDaysEnd | models.py:136-140 | The number of population updates made is the index of the stopping day, or `days`. |
| Models.RecordedNothing | models.py:109-111 | The empty four-list history with peak 0 / 0 is the record of zero days. |
| Models.RecordedRun | models.py:114-143 | When the day loop ends, by break or after all days, the history is the whole run's series, the peak is its earliest maximum, and the updates made equal the index of the last day reached. |
| Models.RunHistory | models.py:114-143 | The run's history has four equally long lists of n ≤ days entries, with n > 0 when days > 0. Each day's counts sum to the size. No day before the last meets the stop condition, and the last one does when n < days. |
| Models.EvolveStep | models.py:140 | The population after d + 1 days is one Population.update of the population after d days, with that day's shuffle and draws. |
| Models.Person.constructor | models.py:24-30 | A new person is healthy with zero counters, _cured_time 0 and the given immunity. |
| Models.Person.UpdateInfections | models.py:33-47 | The new fields are Advance of the old ones. |
| Models.Population.constructor | models.py:51-55 | Creates size fresh, distinct persons with the given immunities, exposing exactly the sampled indices. |
| Models.Population.GroupByStatus | models.py:83-87 | Returns a grouping: a key per status present, and under it the persons of that status in population order. |
| Models.Population.GroupSizes | models.py:116-120 | Returns the four group sizes, with missing groups counted 0. |
| Models.Population.GetStatistics | models.py:90-91 | Has a key for exactly the statuses present, each mapped to its count. |
| Models.Population.Update | models.py:58-80 | The new states are Step of the old states. new_infections is the number of persons newly exposed. |
| Models.Population.AdvanceAll | models.py:62-63 | Applies update_infections to every person once. |
| Models.Population.SetExposed | models.py:77-78 | Exposes exactly the target, with incubation 0. |
| Models.Population.Spread | models.py:68-79 | The states after the contact loop are those of the min(2·infected, healthy) popped trials. The count returned is the successes. |
| Models.Population.Contacts | models.py:71-79 | One infector's up to two pops. The pending list loses its last min(2, remaining) persons, and those trials are applied in order. |
| Models.AgentBasedModel.constructor | models.py:106-111 | Builds the population with the given initial exposed, an empty four-list history, and peak 0 / 0. |
| Models.AgentBasedModel.RecordDay | models.py:122-129 | Appends the day's counts to the history and updates the earliest peak. |
| Models.AgentBasedModel.Day | models.py:116-140 | One loop iteration: records day d, and returns stop exactly when the stop condition holds. The population is updated only when it does not stop. |
| Models.AgentBasedModel.UpdateDay | models.py:140 | The population after the update is the next day's. |
| Models.AgentBasedModel.Run | models.py:114-143 | The returned history is the recorded days of the run. The peak is the earliest maximum of its infected list. The population has been updated once for each recorded day except a stopping day. |
| MainSim.CureDayRange | main.py:40-63 | The cure day is within one day of the drawn base duration, so between 4 and 8. |
| MainSim.CureDay | main.py:62 | Definition, which has no contract of its own: base_duration plus the immunity effect is the days_infected value that cures. MainSim.CureDayRange bounds it. |
| MainSim.Advance | main.py:55-63 | Definition, which has no contract of its own: update_infections on one person's fields. MainSim.ExposedTimeline, InfectedTimeline and Settled state each branch. |
| MainSim.Expose | main.py:95-96 | Definition, which has no contract of its own: a successful contact sets the status to exposed and the incubation to 0. MainSim.ExposeTargetsHits and StepEffect state its effect. |
| MainSim.ExposedTimeline | main.py:56-59 | An exposed person's incubation rises by 1 per update. It is infected once incubation reaches 2. |
| MainSim.InfectedTimeline | main.py:60-63 | An infected person's days_infected rises by 1 per update. It is cured once the count reaches base duration + immunity effect. |
| MainSim.Settled | main.py:55-63 | An update changes nothing exactly for healthy and cured persons. |
| MainSim.CuredForever | main.py:55-63 | Any number of updates leaves a cured person unchanged. |
| MainSim.NeverHealthyAgain | main.py:55-63 | A person is healthy after an update exactly when it was healthy before. |
| MainSim.InfectionCourse | main.py:55-63 | After exposure a person is exposed for 1 update, infected from update 2 to update 1 + cure day, and cured from then on. |
| MainSim.InfectedPhase | main.py:60-63 | From the day a person becomes infected with days_infected 0, it stays infected for cure-day updates and is then cured. |
| MainSim.ImmunityKept | main.py:51 | Updates never change a person's immunity. |
| MainSim.StaysCured | main.py:55-63 | Once cured, cured for every later update. |
| MainSim.IterateAdd | main.py:55 | k updates followed by j updates are k + j updates. |
| MainSim.ExposeTargetsHits | main.py:93-96 | After t trials, a person is exposed with incubation 0 exactly when one of them hit it. |
| MainSim.Step | main.py:77-98 | Definition, which has no contract of its own: Population.update on the persons' fields, everyone advanced, then the popped trials applied. MainSim.StepEffect, NewInfectionsBound and StepMonotone state its effect. |
| MainSim.StepEffect | main.py:77-98 | Population.update keeps the size. Each newly exposed person was healthy at the start of the call. Everyone else gets exactly one update_infections. |
| MainSim.NewInfectionsBound | main.py:77-98 | new_infections equals the successful trials and is at most 2·infected₀ and at most healthy₀. |
| MainSim.NoSpreadersNoExposure | main.py:87 | With nobody infected at the start of the call, nobody is exposed. |
| MainSim.InitialCounts | main.py:71-74 | A new population has size persons: exactly infected_count exposed and the rest healthy. |
| MainSim.Evolve | main.py:127-151 | The persons after d days of the run, one Population.update per day; the number of persons is kept. |
| MainSim.Trace | main.py:128-137 | The counts series of the first n days, of length n. |
| MainSim.RunLength | main.py:127-149 | The number of days the run records: never below the day already reached, and at most days. |
| MainSim.TraceAt | main.py:127-137 | Day d of the recorded series is the counts after d updates. |
| MainSim.TraceStep | main.py:134-137 | Recording one more day appends exactly that day's counts to the series. |
| MainSim.RunLengthStops | main.py:147-149 | Only the last recorded day can meet the stop condition, and it does when the run ends early. |
| MainSim.RunEnd | main.py:126-154 | The recorded length is day + 1 when the loop stopped on day `day`, and `days` otherwise. |
| MainSim.UpdatedDaysEnd | main.py:147-151 | The number of updates made is the stopping day's index, or `days`. |
| MainSim.RecordedRun | main.py:126-154 | When the day loop ends, the history is the whole run's series, the peak its earliest maximum, and the updates made equal the index of the last day reached. |
| MainSim.RunHistory | main.py:126-154 | Four equally long lists of n ≤ days entries, each day summing to the size, with the stop condition met only on the last day, and on it when n < days. |
| MainSim.EvolveStep | main.py:151 | Day d + 1 is one Population.update of day d. |
| MainSim.StepMonotone | main.py:55-98 | Across one update the healthy count never rises and the cured count never falls. |
| MainSim.NextDayMonotone | main.py:151 | The same holds between consecutive days of the run. |
| MainSim.DailyMonotone | main.py:127-151 | For d ≤ e, day e has no more healthy and no fewer cured persons than day d. |
| MainSim.TraceMonotone | main.py:127-137 | The recorded series is monotone in that sense. |
| MainSim.RunMonotone | main.py:126-154 | The run's healthy list never rises and its cured list never falls. |
| MainSim.Person.constructor | main.py:47-52 | A new person is healthy with zero counters and the given immunity. |
| MainSim.Person.UpdateInfections | main.py:55-63 | The new fields are Advance of the old ones. |
| MainSim.Population.constructor | main.py:71-74 | Creates size fresh, distinct persons, exposing exactly the sampled indices. |
| MainSim.Population.GroupByStatus | main.py:101-105 | Returns the grouping by status in population order. |
| MainSim.Population.GroupSizes | main.py:128-132 | Returns the four group sizes, with missing groups counted 0. |
| MainSim.Population.GetStatistics | main.py:108-109 | Has a key for exactly the statuses present, each mapped to its count. |
| MainSim.Population.Update | main.py:77-98 | The new states are Step of the old. new_infections is the number newly exposed. |
| MainSim.Population.AdvanceAll | main.py:81-82 | Applies update_infections to every person once. |
| MainSim.Population.SetExposed | main.py:95-96 | Exposes exactly the target, with incubation 0. |
| MainSim.Population.Spread | main.py:87-97 | The states after the contact loop are those of the popped trials. The count is the successes. |
| MainSim.Population.Trial | main.py:94-97 | One trial on the t-th popped target extends the applied trials and the success count by one. |
| MainSim.Population.Contacts | main.py:90-97 | One infector's up to two pops from the end of the pending list. |
| MainSim.Simulation.constructor | main.py:113-119 | Builds the population, an empty history and peak 0 / 0. |
| MainSim.Simulation.RecordDay | main.py:134-141 | Appends the day's counts and updates the earliest peak. |
| MainSim.Simulation.Day | main.py:128-151 | Records day d, returns whether it stops, and updates the population only when it does not. |
| MainSim.Simulation.UpdateDay | main.py:151 | The population after the update is the next day's. |
| MainSim.Simulation.Run | main.py:126-154 | The history is the run's recorded days, and the peak is the earliest maximum of its infected list. |
| Sari.CureDay | S.A.R.I.py:14-16 | The cure threshold is within one day of base_duration, so between 4 and 7. |
| Sari.Advance | S.A.R.I.py:49-57 | Definition, which has no contract of its own: the first two loops of update_infections on one record. Sari.ExposedTimeline, InfectedTimeline and CuredForever state each branch. |
| Sari.Expose | S.A.R.I.py:74-75 | Definition, which has no contract of its own: a successful contact sets the status to exposed and the incubation to 0. Sari.ExposeTargetsHits and StepEffect state its effect. |
| Sari.ExposedTimeline | S.A.R.I.py:54-57 | An exposed record's incubation rises by 1 per call. It becomes infected when incubation reaches 2. |
| Sari.InfectedTimeline | S.A.R.I.py:49-52 | An infected record's days_infected rises by 1 per call. It becomes cured when days_infected reaches base_duration + effect. |
| Sari.CuredForever | S.A.R.I.py:47-57 | Cured is terminal: no number of advance phases changes a cured record. |
| Sari.NeverHealthyAgain | S.A.R.I.py:47-57 | A record is healthy after the advance phase exactly when it was healthy before. |
| Sari.InfectionCourse | S.A.R.I.py:49-57 | An exposed record is infected on the 2nd call and cured after cure-day further calls, and stays cured. |
| Sari.InfectedPhase | S.A.R.I.py:49-52 | From days_infected 0, infected for cure-day calls, then cured. |
| Sari.ImmunityKept | S.A.R.I.py:41 | The immunity entry never changes. |
| Sari.StaysCured | S.A.R.I.py:52 | Once cured, cured for every later call. |
| Sari.IterateAdd | S.A.R.I.py:47 | k calls followed by j calls are k + j calls. |
| Sari.AdjustedProbability | S.A.R.I.py:71-72 | The trial probability is 0.13, 0.10 or 0.07 for a low, medium or strong infector. |
| Sari.SpreaderImmunities | S.A.R.I.py:59-65 | One immunity per person infected at the start of the call, including those who cure in this call. People who become infected during the call do not spread. |
| Sari.ContactTrials | S.A.R.I.py:65-73 | min(2·infected, healthy) trials. Trial k is made by infector k / 2 with its adjusted probability. |
| Sari.ExposeTargetsHits | S.A.R.I.py:73-75 | After t trials, a record is exposed with incubation 0 exactly when a trial hit it. |
| Sari.Step | S.A.R.I.py:47-77 | Definition, which has no contract of its own: update_infections on the records' fields, everyone advanced, then the front-walked trials applied. Sari.StepEffect, NewInfectionsBound and StepMonotone state its effect. |
| Sari.StepEffect | S.A.R.I.py:47-77 | The size is kept and each newly exposed record was healthy at the start of the call. Every other record is advanced once. |
| Sari.NewInfectionsBound | S.A.R.I.py:62-77 | new_infections equals the successful trials and is at most 2·infected and at most healthy. |
| Sari.NoSpreadersNoExposure | S.A.R.I.py:62 | With nobody infected at the start of the call, nobody is exposed. |
| Sari.InitialCounts | S.A.R.I.py:39-44 | size records with zero counters: exactly infected_count exposed and the rest healthy. |
| Sari.Evolve | S.A.R.I.py:93-117 | The records after d days of simulate, one update_infections per day; the number of records is kept. |
| Sari.Trace | S.A.R.I.py:94-103 | The counts series of the first n days, of length n. |
| Sari.RunLength | S.A.R.I.py:93-115 | The number of days simulate records: never below the day already reached, and at most days. |
| Sari.TraceAt | S.A.R.I.py:93-103 | Day d of the recorded series is the counts after d calls. |
| Sari.TraceStep | S.A.R.I.py:100-103 | Recording one more day appends exactly that day's counts to the series. |
| Sari.RunLengthStops | S.A.R.I.py:113-115 | Only the last recorded day can meet the stop condition, and it does when the loop ends early. |
| Sari.RunEnd | S.A.R.I.py:93-118 | The recorded length is day + 1 when the loop stopped on day `day`, and `days` otherwise. |
| Sari.RunHistory | S.A.R.I.py:93-118 | Four equally long lists of n ≤ days entries, each summing to the size, with the stop condition only on the last day. |
| Sari.EvolveStep | S.A.R.I.py:117 | Day d + 1 is one update_infections call on day d's grouping. |
| Sari.StepMonotone | S.A.R.I.py:47-77 | Cured records are unchanged by a call. The healthy count never rises and the cured count never falls. |
| Sari.NextDayMonotone | S.A.R.I.py:117 | The same holds between consecutive days. |
| Sari.DailyMonotone | S.A.R.I.py:93-117 | For d ≤ e, day e has no more healthy and no fewer cured records than day d. |
| Sari.TraceMonotone | S.A.R.I.py:93-103 | The recorded series is monotone in that sense. |
| Sari.RunMonotone | S.A.R.I.py:93-118 | The run's healthy list never rises and its cured list never falls. |
| Sari.Person.constructor | S.A.R.I.py:40-41 | A new record is healthy with zero counters and the given immunity. |
| Sari.InitializePopulation | S.A.R.I.py:39-44 | size fresh, distinct records whose states are the initial states: exactly the sampled ones exposed. |
| Sari.GroupByStatus | S.A.R.I.py:32-36 | Returns the grouping by the 'status' value, in population order. |
| Sari.UpdateInfections | S.A.R.I.py:47-77 | The new states are Step of the old. new_infections is the number newly exposed. |
| Sari.AdvanceAll | S.A.R.I.py:49-57 | The two advance loops together apply one advance to every record. |
| Sari.AdvanceInfected | S.A.R.I.py:49-52 | Advances exactly the records of the infected group. |
| Sari.CountInfectedDay | S.A.R.I.py:50-52 | Advances exactly one infected record. |
| Sari.AdvanceExposed | S.A.R.I.py:54-57 | Advances exactly the records of the exposed group, which were exposed at the start of the call. |
| Sari.CountIncubationDay | S.A.R.I.py:55-57 | Advances exactly one exposed record. |
| Sari.ExposedKept | S.A.R.I.py:49-57 | The infected loop leaves the exposed group's records as they were at the start of the call. |
| Sari.AdvanceGroups | S.A.R.I.py:49-57 | Advancing the infected group and then the exposed group is one advance of every record. |
| Sari.SpreadersOf | S.A.R.I.py:59-72 | The infected group has one member per start-of-call infected record, with that record's immunity. |
| Sari.ContactPhase | S.A.R.I.py:59-77 | The states after the contact phase are those of the front-walked trials. The count is the successes. |
| Sari.SetExposed | S.A.R.I.py:74-75 | Exposes exactly the target, with incubation 0. |
| Sari.Spread | S.A.R.I.py:63-77 | The contact loop applies min(2·infected, healthy) trials in contact_index order. |
| Sari.Contacts | S.A.R.I.py:66-76 | One infector's up to two contacts. contact_index advances to min(2a + 2, healthy) and those trials are applied. |
| Sari.Meet | S.A.R.I.py:69-76 | The contact at contact_index 2a + c, made by the a-th spreader with its adj_prob, extends the applied trials and the success count by one. |
| Sari.TrialOf | S.A.R.I.py:71-73 | Trial 2a + c succeeds exactly when its draw is below infector a's adjusted probability. |
| Sari.Trial | S.A.R.I.py:69-76 | One trial on the target at contact_index extends the applied trials and the success count by one. |
| Sari.SimulateDay | S.A.R.I.py:94-117 | Records day d, returns whether it stops, and calls update_infections only when it does not. |
| Sari.CountGroups | S.A.R.I.py:94-98 | Returns the grouping and its four sizes. |
| Sari.UpdateDay | S.A.R.I.py:117 | The population after the call is the next day's. |
| Sari.RecordDay | S.A.R.I.py:100-108 | Appends the day's counts and updates the earliest peak. |
| Sari.RecordedRun | S.A.R.I.py:93-118 | When the loop leaves, the history is the run's recorded days and the peak their earliest maximum. |
| Sari.DayLoop | S.A.R.I.py:93-118 | The loop records exactly the run's days and the earliest peak of the infected list. |
| Sari.Simulate | S.A.R.I.py:83-118 | From the sampled population, the history is the run's recorded days and (peak_day, max_infected) is the earliest maximum of the infected list. |
| AgentModel.Expose | agent_model.py:61-64 | exposed() either leaves the person unchanged or makes it exposed. It changes something only for a susceptible or vaccinated person, who becomes exposed with days_exposed 0. |
| AgentModel.Step | agent_model.py:66-86 | Definition, which has no contract of its own: update on the state and counters, without the immunity arithmetic. AgentModel.ExposedTimeline, InfectedTimeline, RecoveredForever, VaccinatedForever and SusceptibleKept state each branch. |
| AgentModel.ExposeEffect | agent_model.py:55-64 | exposed() changes a person exactly when can_be_infected holds. It makes such a person exposed with days_exposed 0, and a second call changes nothing. |
| AgentModel.StateQueries | agent_model.py:52-59 | An infectious person cannot be infected. can_be_infected holds exactly outside exposed, infected and recovered. |
| AgentModel.ExposedTimeline | agent_model.py:67-71 | An exposed person's days_exposed rises by 1 per update. It stays exposed until the counter reaches incubation_period and on that update becomes infected with days_infected 0. |
| AgentModel.InfectedTimeline | agent_model.py:73-77 | An infected person's days_infected rises by 1 per update. It stays infected until the counter reaches infectious_period and on that update becomes recovered with days_since_recovery 0. |
| AgentModel.RecoveredForever | agent_model.py:80-81 | A recovered person stays recovered, with days_since_recovery rising by 1 per update. |
| AgentModel.VaccinatedForever | agent_model.py:84-85 | A vaccinated person stays vaccinated, with days_since_vaccination rising by 1 per update. |
| AgentModel.SusceptibleKept | agent_model.py:66-86 | update leaves a susceptible person unchanged and never makes anyone else susceptible. |
| AgentModel.NeverSusceptibleAgain | agent_model.py:66-86 | No number of updates returns a person to susceptible. |
| AgentModel.IterateAdd | agent_model.py:66 | k updates followed by j updates are k + j updates. |
| AgentModel.InfectedOn | agent_model.py:73-81 | From days_infected 0: infected before infectious_period updates, recovered from then on. |
| AgentModel.InfectedPhase | agent_model.py:73-81 | The same for every number of updates. |
| AgentModel.InfectionCourse | agent_model.py:61-81 | With positive periods, an exposed receptive person is exposed for incubation_period updates, infected for the next infectious_period updates, and recovered from then on. |
| AgentModel.UpdateAsWritten | agent_model.py:66-86 | update as written fails exactly on the updates that touch the immunity object: recovery, and every recovered or vaccinated day. Whether it fails or not, the fields it has assigned by then are those of Step. |
| AgentModel.DefaultCourse | agent_model.py:45-77 | A default person k ≤ 8 updates after exposure is exposed for 2 updates, then infected with days_infected k − 2. |
| AgentModel.RecoveryFailsAsWritten | agent_model.py:76-78 | A default exposed person passes 8 updates as written and fails on the 9th, the one that would recover it. The failing update leaves it recovered, with days_infected 7 and days_since_recovery 0. |
| AgentModel.Person.constructor | agent_model.py:36-50 | The dataclass constructor with the given field values. |
| AgentModel.Person.IsInfectious | agent_model.py:52-53 | Definition, which has no contract of its own: the person is infected. AgentModel.StateQueries shows an infected state is never one that can be infected. |
| AgentModel.Person.CanBeInfected | agent_model.py:55-59 | Definition, which has no contract of its own: the person is susceptible or vaccinated. AgentModel.ExposeEffect shows exposed() changes a person exactly when this holds. |
| AgentModel.Person.Exposed | agent_model.py:61-64 | The new fields are Expose of the old. |
| AgentModel.Person.Update | agent_model.py:66-86 | The new fields are Step of the old, with the immunity arithmetic left out. |

## Left out

- `MathematicalModel` (models.py) is not part of this model. It is a floating-point Euler integration, not the agent engine.
- `HybrydModel`, which always returns an empty history, and the abstract `BaseModel` are not part of this model.
- The stub classes and `GUI` class of main.py, gui.py, and the Tk set-up and plotting of S.A.R.I.py are not part of this model. They are user interface.
- calib.py, school_epidemic_calibration.py and school_test.py are file input/output and calibration scripts. They are not part of this model.
- utils.py and the `singleton` decorators are not modelled. The virus is a constant record (`VIRUS`) or module constants.
- Logging (`log_callback`, `log_message`) is dropped. It only writes text.
- `random` is not modelled statistically. Shuffles, draws, samples and choices are inputs, and nothing is said about their distribution.
- Probabilities and draws are reals. `0.1 + 0.03` is exactly 0.13, so the floating-point rounding of the comparison `random.random() < p` is not modelled.
- `round(population_size * 0.05)` is passed in as the initial exposed count, so Python's half-to-even rounding is not modelled.
- Models.Population.constructor: `random.sample` raises ValueError when infected_count exceeds size. The model instead requires the sampled indices to be distinct and in range. The same holds for MainSim.Population.constructor, Sari.InitializePopulation and the run constructors.
- Models.Population.Update: `random.shuffle` reorders the group's own list in place. The model shuffles a copy, because that list is discarded after the call. The same holds for MainSim.Population.Update and Sari.UpdateInfections.
- Models.AgentBasedModel.Run: `run` is specified for a freshly constructed model with an empty history and peak 0, which is the only way the program calls it. A second `run` on the same object is not modelled. The same holds for MainSim.Simulation.Run.
- Models.AgentBasedModel.Run: the per-day facts are stated about the run's functions in Models.RunHistory, Models.RunLengthStops and Models.PeakCharacterization, not repeated in Run's own contract. The same holds for MainSim.Simulation.Run (with MainSim.RunMonotone) and Sari.Simulate.
- AgentModel.Person.Update: the immunity arithmetic of agent_model.py lines 78, 82 and 86 is left out (see Findings), and so is the `Immunity` dataclass. The person's `immunity` attribute is not a field of the model.
- `BASE_DURATION` of MainSim and Sari is one unknown value in [5, 7] or [5, 6]. Proofs hold for each possible value, but no particular draw is modelled.
- `Person.get_contact` (main.py) is an empty body and `Utils.resource_path` is path handling. Neither is modelled.

## Findings

| source | as written | input that shows it | evidently intended | confidence | as-written member | corrected member |
|---|---|---|---|---|---|---|
| agent_model.py:78-86 | `immunity` is an unannotated class attribute holding an `Immunity` dataclass object. `update` adds 0.6 to it on recovery and multiplies it while recovered or vaccinated, and neither is defined for that class, so Python raises TypeError. The lines before the failing one have already run, so the person is left recovered with days_since_recovery 0, or with days_since_recovery or days_since_vaccination one higher. | A default `Person` in state INFECTED with `days_infected = 6`, or a default person after `exposed()` and 8 updates, on its next `update()` | immunity is a number that recovery raises (capped at 1) and that decays each day; the state machine recovers and then stays recovered | high (not executed) | AgentModel.UpdateAsWritten, AgentModel.RecoveryFailsAsWritten | AgentModel.Step, AgentModel.Person.Update, AgentModel.InfectionCourse |
