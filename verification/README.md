# DeepKernel: a verified model

DeepKernel watches the system calls of containers. A C++ agent groups kernel events into short windows and, on
request, into long binary dumps; a Java server extracts features, scores and triages windows and enforces policies;
a Python service and its tools train models from the dumps. This project models that machinery in Dafny and proves
what it keeps over whole runs. `dafny verify dfyconfig.toml` checks everything.

The modules, each after the component it models:

- `Common`, `Widths`, `Trace`: an option type, fixed-width arithmetic, events, trace records and window payloads.
- `AgentSpec`, `AgentImpl`: each agent step as a function on all buffers and everything sent, and the agent object
  whose callbacks compute it in place, in any iteration order of its hash table. `AgentRuns`, `DumpRuns`: whole runs.
- `DumpFormat`, `Windower`, `Drift`, `DumpPipeline`: the packed file and its reader, the splitter, the reader's clock,
  and all of it joined to the runs of the agent. `DumpTimes`: when dumps start and end. `Division`: quotients.
- `Alphabet`, `Counting`, `RealArith`, `Entropy`, `Features`, `FeatureTheorems`, `VectorMeaning`, `Durations`: the 594-entry
  vector, written twice, and each of its entries by positions in the window.
- `Scoring`, `ScoreMeaning`, `Triage`: the in-process scorer and what each signal is worth, heuristic triage and policy.
  `Ingest`, `ConcurrentIngest`: the ingest pipeline, served alone and interleaved.
- `Training`, `ConcurrentTraining`, `TrainingProtocol`: registry and jobs, starts that overlap, and their composition
  with the agent over a lossy network.
- `Fallback`, `TtlCache`, `ModelStore`: the hybrid adapter, the name caches, and the model registry over its files.

A state-changing method is proved against a function of the old state; the theorems are about those functions over
all runs. Clocks, file-system outcomes, resolved names, remote answers and what the ports reply are parameters of
the steps. The natural logarithm is a parameter that is only known to turn products into sums and to lie below x - 1.

Several expectations hold only under a condition, which is then proved exact:

- A dump is closed by the first event of *any* container stamped past its end, so it can miss late events of its own
  container (`DumpRuns.DumpCompleteIff`, `DumpRuns.OtherContainerClosesEarly`).
- A request while a dump of the container is open loses what follows: the file stays as it was, while the notice names
  and counts what was never written (`DumpRuns.NoticeFitsIff`).
- Deltas are relative to the previous record, as the code writes them; the comment on the record in the agent's README
  says since window start. They fit 32 bits exactly up to 4294 seconds (`Drift.NoDeltaCutIff`), and the reader's clock is
  right exactly for events in order (`DumpPipeline.DumpClockIff`); those of a payload fit
  the server's up to 2^31 microseconds (`Durations.PayloadFitsIff`).
- A dump starts at its container's last event, unless the container was found idle since (`DumpTimes.DumpStartsAt`).
- The server counts classes 0 and 1 as file and network operations, the training tool 1 and 2, as the kernel program
  assigns them (`FeatureTheorems.ExtractorsAgree`); on no records the two vectors differ in length.
- The tool takes a dump record's delta for the time since the window began, so its duration entry is the last gap only
  (`Durations.ToolDurationIsTrueIff`).
- A failing start rolls the registry back but also cancels an earlier job (`Training.FailedStartIsNeutralIff`), whose
  version then stays in training for good (`Training.FailedStartStrandsEarlierJob`).
- A start whose agent call fails while others are served can remove a ready version or another start's entry
  (`ConcurrentTraining.RollbackUndoesOwnIff`).
- The policy in a container's view belongs to the window shown only if one request was last in both
  (`ConcurrentIngest.ViewPolicyIff`).
- Enforcement needs a remote threshold of at most -0.5 (`Triage.RemoteEngineEnforcesIff`); the service's README gives
  -0.5 as the default, its configuration -0.65.
- A model can turn ready on the notice of a dump older than its training, except exactly where no dump was open and no
  notice on its way when the training started (`TrainingProtocol.OwnDumpIff`).
- The model endpoint follows each container's own trainings exactly if no two ids share a file name
  (`ModelStore.FilesDistinctIff`); deleting a model just after a restart does nothing (`ModelStore.DeleteAfterRestartIff`);
  a failed refit leaves a model that says ready and cannot score (`ModelStore.FailedRefitBreaksScoring`).

## Model

| member | source | states |
|---|---|---|
| AgentImpl.Agent.HandleEvent | agent/src/agent.cpp:178-229 | The callback takes the buffers, the sent posts and the sweep clock from their old state to the one the step function gives, for every event, accepted or filtered out. |
| AgentImpl.Agent.TakeEvent | agent/src/agent.cpp:209-224 | The event's own container: accumulate, append to the dump, post the window when due; no other buffer changes. |
| AgentImpl.Agent.AppendLongDump | agent/src/agent.cpp:231-247 | Nothing, one more record, or the closing sequence, exactly on the source's three branches. |
| AgentImpl.Agent.FinishDump | agent/src/agent.cpp:320-330 | Close, clear the flag, notify, reset: the sequence both closing paths run. |
| AgentImpl.Agent.NotifyDumpComplete | agent/src/agent.cpp:332-354 | One notice with the buffer's path, start, duration and count, and those three fields reset. |
| AgentImpl.Agent.ProcessShortWindow | agent/src/agent.cpp:249-263 | Posts the open window once and empties it. |
| AgentImpl.Agent.StopExpiredLongDumps | agent/src/agent.cpp:320-330 | In any iteration order of the table, every expired dump is finished and every other buffer is left alone. |
| AgentImpl.Agent.CleanupInactiveBuffers | agent/src/agent.cpp:356-385 | At most once a minute, in any iteration order, erases exactly the idle buffers without dump or window. |
| AgentImpl.Agent.RequestLongDump | agent/src/agent.cpp:285-318 | Opens, or fails to open, or breaks an already open stream, and sets the dump's fields and header accordingly. |
| AgentRuns.ShortWindowConservation | agent/src/agent.cpp:209-263 | In every run, for every container: the posted windows followed by the open one are the accepted events in order, each post cut at the first event that meets both tests. |
| AgentRuns.CutIsUnique | agent/src/agent.cpp:220-224 | Only one way of cutting a list of events meets those conditions. |
| AgentRuns.PostsAreTheCut | agent/src/agent.cpp:209-263 | Hence any list of windows that meets them is what the agent posted. |
| AgentRuns.StepAtContainer | agent/src/agent.cpp:178-229 | What any step on any container does to a given one, in terms of that one alone. |
| AgentRuns.PayloadClock | agent/src/serialization.cpp:19-47 | A posted payload begins at delta 0 and gives a timestamp back to within a microsecond, whatever its length, if and only if it is not before the window's first. |
| Trace.BuildWindowRecords | agent/src/serialization.cpp:31-43 | The loop that writes a payload's records computes 64-bit microsecond deltas from the window start and copies the other fields. |
| Trace.DeltasKeepKinds | agent/src/serialization.cpp:9-17 | Dump records carry the events' system calls, classes and buckets unchanged and in order. |
| DumpRuns.OneNoticePerDump | agent/src/agent.cpp:231-247 | In every run, even with reopened dumps: notices sent plus the one dump possibly open equal dumps begun; as many files closed as notices sent; flag and stream agree. |
| DumpRuns.DumpGrows | agent/src/agent.cpp:231-247 | Until an event ends it or a request asks again, an open dump has taken exactly the container's events since its request: its file is the header and those events, or what an earlier dump had written if the request broke that dump's stream. |
| DumpRuns.DumpFileContents | agent/src/agent.cpp:285-354 | From its closing event to the end of the run, the dump's notice names its path and exactly the number of events taken, and its file is the image of exactly those events, 80 + 8 * count bytes; if its request came while a dump was open, the file is that dump's as it stood. |
| DumpRuns.EveryFileIsADump | agent/src/agent.cpp:320-354 | In every run, whatever was requested when, each file closed and notice sent for a container is that of one dump, the i-th of those the previous row describes. |
| DumpRuns.EveryFileIsWritten | agent/src/agent.cpp:285-330 | In every run each file ever closed was opened by one request and holds the image of exactly the container's events from there to the event that ended the dump or the request that broke it. |
| DumpRuns.LogsOnlyGrow | agent/src/agent.cpp:320-354 | Closed files and sent notices never change later. |
| DumpRuns.NoticeFitsIff | agent/src/agent.cpp:285-354 | However the run goes on, a dump's notice and file agree on path and number of records if and only if its request came while no dump of the container was open, or broke one of the same path that holds a header alone with an end no event can come before. |
| DumpRuns.DumpCompleteIff | agent/src/agent.cpp:320-330 | What a dump has taken is every event of its container stamped in [start, end) if and only if it took none from before the start and none of the interval is handled after the first event of any container stamped at or past the end. |
| DumpRuns.OrderedEventsComplete | agent/src/agent.cpp:226-242 | Where events are handled in stamp order across containers, only events from before the start can make the difference. |
| DumpRuns.OtherContainerClosesEarly | agent/src/agent.cpp:320-330 | Stamp order within each container is not: a concrete run in which another container's event closes a dump before an event of its interval arrives. |
| DumpTimes.DumpStartsAt | agent/src/agent.cpp:285-310 | In every run a served request starts its dump at the stamp of the container's last accepted event, or at the clock if there was none, its stamp is zero, or the container was found idle since: at a sweep, at most one a minute, more than 300 seconds after that event, all its events posted and no dump of it open. It ends the requested seconds later, on 64 bits. |
| DumpTimes.DumpStartsAtLastEvent | agent/src/agent.cpp:301-303 | In particular exactly at the last event if no event of any container since is stamped more than 300 seconds from it. |
| DumpTimes.NoticeAndHeaderStart | agent/src/agent.cpp:312-354 | The notice, and the header of a dump that broke no other, give that start. |
| DumpTimes.LastEventKnown | agent/src/agent.cpp:356-385 | The agent knows a container's last stamp exactly until it finds the container idle. |
| DumpFormat.ParseDumpFile | ml-service/tools/train_from_dump.py:56-94 | The reader's loop computes the specified parse; a file shorter than 80 bytes is an error. |
| DumpFormat.ParseOfPrefix | agent/include/event_types.h:17-30 | Any byte prefix of a written file parses to its header and exactly the floor((L - 80) / 8) records whole inside it. |
| DumpFormat.ParseOfFile | ml-service/tools/train_from_dump.py:56-94 | Parsing a written file gives the header and the records back. |
| DumpFormat.HeaderRoundTrip | agent/src/agent.cpp:312-317 | A header reads back unchanged but for its id, cut at its first NUL and to 63 bytes. |
| DumpFormat.RecordsReadBack | ml-service/tools/train_from_dump.py:79-94 | Conversely, the records read from whole groups of bytes encode to those bytes. |
| DumpFormat.RecordLayout | agent/include/event_types.h:17-30 | The eight bytes of a record: delta and system call low byte first, then class and bucket. |
| DumpFormat.HeaderLayout | agent/src/agent.cpp:312-317 | The eighty bytes of a header: version, vocabulary size, the id padded with NULs, the start. |
| DumpFormat.StoredIdIs | agent/src/agent.cpp:315-315 | What survives of an id is its prefix up to the first NUL, at most 63 bytes. |
| Windower.SplitIntoWindows | ml-service/tools/train_from_dump.py:236-274 | For every positive window length the one-pass splitter terminates and returns the grouping by time index. |
| Windower.GroupIsGrouping | ml-service/tools/train_from_dump.py:258-272 | The grouping's windows are nonempty, in record order, with strictly increasing indices, each record in the window of floor(cumulative / W). |
| Windower.GroupingIsUnique | ml-service/tools/train_from_dump.py:258-272 | No other list of windows has those properties. |
| Windower.SplitIsPartition | ml-service/tools/train_from_dump.py:236-274 | The windows concatenate to the input, none is empty, and there are at most floor(total / W) + 1. |
| Windower.WindowsAreShort | ml-service/tools/train_from_dump.py:258-268 | The records of each window returned come less than W after its first. |
| Windower.WindowAt | ml-service/tools/train_from_dump.py:258-268 | Each window is one stretch of the records; the time accumulated with each of its records falls in its period, and the time before its first in an earlier one. |
| Drift.NoDeltaCutIff | agent/src/serialization.cpp:9-17 | No gap inside a dump overflows its 32-bit delta if and only if the dump lasts at most 4294 seconds. |
| Drift.DriftBoundIff | agent/src/serialization.cpp:9-17 | For stamps in order, none before the start, and up to 2^32 records, the reader's clock is behind by at most 999 ns a record and never ahead if and only if no gap overflows. |
| Drift.ClockIsRightIff | agent/src/serialization.cpp:9-17 | For any stamps whatever, up to 2^30 records: the clock keeps that bound after every record if and only if the stamps are in order, none before the start, and no gap overflows. |
| Drift.ReaderLag | ml-service/tools/train_from_dump.py:256-268 | For stamps in order, none before the start, and no gap that overflows, the lag in microseconds is at most floor(999 n / 1000), so a record's window is never too late and too early by at most that lag in windows, rounded up. |
| Drift.DriftIsReached | agent/src/agent.cpp:242-246 | The bound is tight: events 1999 ns apart reach it at every length. |
| DumpPipeline.FileParses | agent/src/agent.cpp:285-354 | A file of any run parses to its dump's own header and the deltas of exactly the events the dump took. |
| DumpPipeline.DumpToWindows | ml-service/tools/train_from_dump.py:236-274 | End to end, for every file of every run and every window length: parsing and splitting it gives windows whose concatenation says exactly what the container's events said from the request that opened the file to the input that ended its dump; in stamp order those are all events of the interval exactly if none is from before its start. |
| DumpPipeline.DumpClock | ml-service/tools/train_from_dump.py:256-268 | For every file whose dump lasts at most 4294 seconds and took its events in stamp order, none from before its start, the lag bounds hold record by record of the parsed file. |
| DumpPipeline.DumpClockIff | ml-service/tools/train_from_dump.py:256-268 | For every file of every run with up to 2^30 records, whatever the stamps: the reader's clock keeps the bound of 999 ns a record throughout if and only if the dump took its events in stamp order, none from before its start, with no gap that overflows; up to 4294 seconds the order alone decides. |
| Alphabet.SymbolsAgree | server/core/src/main/java/com/deepkernel/core/service/FeatureExtractor.java:112-176 | The server's switch and the tool's dictionary map every system call to the same letter. |
| Alphabet.CallsOf | server/core/src/main/java/com/deepkernel/core/service/FeatureExtractor.java:112-176 | Which system calls stand behind each letter. |
| Alphabet.BucketsAgreeIff | server/core/src/main/java/com/deepkernel/core/service/FeatureExtractor.java:178-185 | The two bucket foldings agree exactly on non-negative sums and on those whose Python remainder is 0 or 11. |
| Features.JavaExtract | server/core/src/main/java/com/deepkernel/core/service/FeatureExtractor.java:21-110 | The server's loops over matrices and counters produce exactly the specified vector, empty for no records. |
| Features.PyExtract | ml-service/tools/train_from_dump.py:142-233 | The tool's loops do the same, with its own class codes and 594 zeros for no records. |
| Features.EmitMarkov | server/core/src/main/java/com/deepkernel/core/service/FeatureExtractor.java:66-82 | The emission loop yields the block row by row, the number of distinct pairs and the entropy of their shares. |
| Features.NormalizeRows | server/core/src/main/java/com/deepkernel/core/service/FeatureExtractor.java:58-64 | Each row is divided by its departures, rows never left stay zero. |
| VectorMeaning.JavaVectorMeans | server/core/src/main/java/com/deepkernel/core/service/FeatureExtractor.java:21-110 | Every entry of the server's vector by positions in the window: each cell times the times its row's letter is left is the times its pair occurs; 576 the distinct pairs; 577 times the pairs is minus the sum over all positions of ln(frequency of the pair there + 1e-12); 578 and 579 classes 0 and 1; the durations; the twelve buckets. |
| VectorMeaning.PyVectorMeans | ml-service/tools/train_from_dump.py:142-233 | The same of the tool's vector, with classes 1 and 2. |
| VectorMeaning.EntropyOverPositions | server/core/src/main/java/com/deepkernel/core/service/FeatureExtractor.java:66-82 | The entropy, a sum over cells, is one over positions. |
| VectorMeaning.EntropyEntry | server/core/src/main/java/com/deepkernel/core/service/FeatureExtractor.java:75-80 | If all distinct pairs of a window are equally frequent, entry 577 of both vectors is -ln(1 / entry 576 + 1e-12). |
| FeatureTheorems.ExtractorsAgree | ml-service/tools/train_from_dump.py:142-233 | On any non-negative records the tool's vector has 594 entries and the server's as many, or none for no records; they are equal outside 578 and 579, and equal throughout exactly when there are records and classes 0, 1 and 2 are equally frequent. |
| FeatureTheorems.MarkovRow | server/core/src/main/java/com/deepkernel/core/service/FeatureExtractor.java:58-64 | Each row of the block sums to exactly 1, or is all zero if its symbol is never left. |
| FeatureTheorems.MarkovEntry | server/core/src/main/java/com/deepkernel/core/service/FeatureExtractor.java:50-64 | Each entry times its row's departures is the number of adjacent pairs. |
| FeatureTheorems.MarkovCounts | ml-service/tools/train_from_dump.py:161-190 | Rows total departures, columns arrivals, everything n - 1, and departures minus arrivals is [first] minus [last]. |
| Counting.FlowConservation | ml-service/tools/train_from_dump.py:180-184 | Flow conservation of the pair counts at every symbol. |
| FeatureTheorems.EntropyBounds | ml-service/tools/train_from_dump.py:192-207 | For two records or more the shares sum to 1, 1 <= distinct pairs <= min(n - 1, 576), and -1e-12 <= entropy <= ln(distinct pairs); non-negative from two distinct pairs on, up to 10^12 records. |
| Entropy.EntropyAtMost | server/core/src/main/java/com/deepkernel/core/service/FeatureExtractor.java:75-80 | Gibbs' inequality for any list of counts, from two laws of the logarithm. |
| Entropy.EntropyAtLeast | server/core/src/main/java/com/deepkernel/core/service/FeatureExtractor.java:75-80 | The guard inside the logarithm lowers the entropy below zero by at most itself. |
| FeatureTheorems.SingleRecord | ml-service/tools/train_from_dump.py:192-207 | One record alone has no pair and entropy 0. |
| FeatureTheorems.BucketRatiosSumToOne | ml-service/tools/train_from_dump.py:224-227 | The twelve bucket entries sum to 1. |
| Durations.DurationEntries | server/core/src/main/java/com/deepkernel/core/service/FeatureExtractor.java:84-94 | Entry 580 of both vectors is the last delta in seconds, and entry 581 times the record count is entry 580. |
| Durations.PayloadFitsIff | server/contracts/src/main/java/com/deepkernel/contracts/model/TraceRecord.java:5-10 | A payload with no event before its start or after its last fits the server's 32-bit deltas if and only if it spans less than 2^31 microseconds. |
| Durations.ServerDurationIsTrue | server/core/src/main/java/com/deepkernel/core/service/FeatureExtractor.java:47-48 | On the agent's payloads that fit the server's deltas its duration is the true one to within a microsecond. |
| Durations.ToolDurationIsTrueIff | ml-service/tools/train_from_dump.py:176-213 | On each window the splitter returns, the tool's duration is the time since the window's period began if and only if all records but the last fall on that beginning, a window of one record only in the very first period. |
| Features.PadAndCut | server/core/src/main/java/com/deepkernel/core/service/FeatureExtractor.java:101-107 | The last lines pad or cut any list to 594 entries and leave one of that length alone. |
| Scoring.CheckSuspiciousSyscallPatterns | server/anomaly-engine/src/main/java/com/deepkernel/anomaly/engine/InProcessIsolationForestAdapter.java:153-192 | The pattern check's accumulating loops compute the specified suspicion. |
| Scoring.CalculateHeuristicScore | server/anomaly-engine/src/main/java/com/deepkernel/anomaly/engine/InProcessIsolationForestAdapter.java:99-148 | The score is accumulated signal by signal to the specified sum, capped at 1. |
| Scoring.ComputeBaseline | server/anomaly-engine/src/main/java/com/deepkernel/anomaly/engine/InProcessIsolationForestAdapter.java:205-228 | The baseline is the three averages over the vectors long enough, or the fixed defaults. |
| Scoring.InProcessAdapter.TrainModel | server/anomaly-engine/src/main/java/com/deepkernel/anomaly/engine/InProcessIsolationForestAdapter.java:72-88 | Training counts the version up always and replaces the baseline only when there is data. |
| Scoring.InProcessAdapter.ScoreWindow | server/anomaly-engine/src/main/java/com/deepkernel/anomaly/engine/InProcessIsolationForestAdapter.java:56-69 | An empty vector scores neutral, any other its heuristic score against 0.6. |
| Scoring.ReadsPairFrequency | server/anomaly-engine/src/main/java/com/deepkernel/anomaly/engine/InProcessIsolationForestAdapter.java:194-200 | The scorer reads back exactly the pair frequency the extractor wrote. |
| Scoring.ColumnTotalOf | server/anomaly-engine/src/main/java/com/deepkernel/anomaly/engine/InProcessIsolationForestAdapter.java:168-183 | A column signal is zero exactly if no pair leads to its symbol, and at least every cell of the column. |
| Scoring.ScoreOfWindow | server/anomaly-engine/src/main/java/com/deepkernel/anomaly/engine/InProcessIsolationForestAdapter.java:99-148 | For every window: a score in [0, 1], at most 0.8 without a baseline, and without baseline and pattern at most 0.5 and never anomalous. |
| ScoreMeaning.RecordsRaise | server/anomaly-engine/src/main/java/com/deepkernel/anomaly/engine/InProcessIsolationForestAdapter.java:153-192 | On records, with any baseline: call 101 above one in a hundred after some letter scores at least 0.12, so does fork above three in ten after fork; calls 165 and 166 above one in a hundred at least 0.09, so does connect or socket above one in ten after execve. |
| ScoreMeaning.PatternsRaise | server/anomaly-engine/src/main/java/com/deepkernel/anomaly/engine/InProcessIsolationForestAdapter.java:99-192 | On vectors: at least 0.03 for each tenth of the patterns shown, up to 0.3, whatever else there is. |
| ScoreMeaning.QuietScore | server/anomaly-engine/src/main/java/com/deepkernel/anomaly/engine/InProcessIsolationForestAdapter.java:99-148 | Exactly that without a baseline if the three statistics are in their quiet ranges. |
| ScoreMeaning.ZeroScoreIff | server/anomaly-engine/src/main/java/com/deepkernel/anomaly/engine/InProcessIsolationForestAdapter.java:99-148 | Without a baseline the score is 0 exactly if no pattern fires, the network share is at most 0.4, the entropy in [1, 4] and there are at most 50 distinct pairs. |
| ScoreMeaning.StatisticsAdd | server/anomaly-engine/src/main/java/com/deepkernel/anomaly/engine/InProcessIsolationForestAdapter.java:108-137 | Vectors alike but for one of the three statistics have scores that differ by what is due to it. |
| ScoreMeaning.BaselineAdds | server/anomaly-engine/src/main/java/com/deepkernel/anomaly/engine/InProcessIsolationForestAdapter.java:140-148 | Below the cap a baseline adds a fifth of the weighted distance of the statistics from it, at most 0.2. |
| ScoreMeaning.AnomalousIff | server/anomaly-engine/src/main/java/com/deepkernel/anomaly/engine/InProcessIsolationForestAdapter.java:56-69 | At most 1, anomalous exactly above 0.6, zero for an empty vector. |
| ScoreMeaning.OtherLengths | server/anomaly-engine/src/main/java/com/deepkernel/anomaly/engine/InProcessIsolationForestAdapter.java:99-148 | A vector below 576 entries scores 0 without a baseline, any shorter one as if filled up, and entries from 580 on do not count. |
| ScoreMeaning.OwnBaselineAddsNothing | server/anomaly-engine/src/main/java/com/deepkernel/anomaly/engine/InProcessIsolationForestAdapter.java:205-228 | A baseline trained on copies of a vector is that vector's statistics and adds nothing to its score. |
| ScoreMeaning.ShortVectorsDoNotCount | server/anomaly-engine/src/main/java/com/deepkernel/anomaly/engine/InProcessIsolationForestAdapter.java:205-228 | Vectors of at most 581 entries do not count towards a baseline; without others it is (0.1, 2, 20). |
| Triage.LocalEngineEnforces | server/triage-service/src/main/java/com/deepkernel/triage/GeminiTriageAdapter.java:209-267 | Through the in-process engine: THREAT, and a policy, exactly for an anomalous window without a dated deployment, at a risk in [0.1, 0.95]. |
| Triage.RemoteEngineEnforcesIff | ml-service/src/models/isolation_forest.py:134-156 | Through the remote engine the same holds for all scores in [-1, 0] if and only if the threshold is at most -0.5. |
| Triage.RiskOfNormal | server/triage-service/src/main/java/com/deepkernel/triage/GeminiTriageAdapter.java:217-221 | Not anomalous: the larger of 0.1 and three tenths of the score's magnitude. |
| Triage.RiskOfDeployed | server/triage-service/src/main/java/com/deepkernel/triage/GeminiTriageAdapter.java:222-231 | Anomalous after a dated deployment: the smaller of 0.5 and six tenths, naming the commit. |
| Triage.RiskOfUnexplained | server/triage-service/src/main/java/com/deepkernel/triage/GeminiTriageAdapter.java:232-255 | Otherwise verdict, risk and explanation by magnitude above 0.95, 0.8, 0.5 and below. |
| Triage.RiskGrows | server/triage-service/src/main/java/com/deepkernel/triage/GeminiTriageAdapter.java:209-267 | Across all branches a larger magnitude never has the smaller risk. |
| Ingest.AnomalyWindowRepository.Save | server/core/src/main/java/com/deepkernel/core/repo/AnomalyWindowRepository.java:17-20 | Replaces the entry of the window's id and puts it last. |
| Ingest.AnomalyWindowRepository.FindByContainer | server/core/src/main/java/com/deepkernel/core/repo/AnomalyWindowRepository.java:22-28 | The last min(limit, size) windows of the container; a negative limit is rejected. |
| Ingest.AnomalyWindowRepository.LatestOf | server/core/src/main/java/com/deepkernel/core/repo/AnomalyWindowRepository.java:30-38 | The container's last entry, if any. |
| Ingest.TriageResultRepository.LatestForWindowId | server/core/src/main/java/com/deepkernel/core/repo/TriageResultRepository.java:17-22 | The last result saved for the window. |
| Ingest.OfContainerIs | server/core/src/main/java/com/deepkernel/core/repo/AnomalyWindowRepository.java:22-28 | The windows of a container are those at exactly its places in the list, in order. |
| Ingest.RemoveIdIs | server/core/src/main/java/com/deepkernel/core/repo/AnomalyWindowRepository.java:17-20 | Removing an id leaves exactly the other places, in order. |
| Ingest.LatestIs | server/core/src/main/java/com/deepkernel/core/repo/AnomalyWindowRepository.java:30-38 | The latest window is the one at the container's last place. |
| Ingest.LatestResultIs | server/core/src/main/java/com/deepkernel/core/repo/TriageResultRepository.java:17-22 | The latest result is the one at the window's last place. |
| Ingest.LatestPolicyIs | server/core/src/main/java/com/deepkernel/core/repo/PolicyRepository.java:19-29 | The latest policy is the one at the container's last place. |
| Ingest.AgentWindowController.IngestWindow | server/core/src/main/java/com/deepkernel/core/api/AgentWindowController.java:93-235 | A request served alone makes exactly its six updates in order, registers its container and answers by the score. |
| ConcurrentIngest.AlwaysConsistent | server/core/src/main/java/com/deepkernel/core/api/AgentWindowController.java:93-235 | Every interleaving of any number of requests: at most one entry an id, and every entry and result is what its request has saved so far. |
| ConcurrentIngest.FinishedIsTriaged | server/core/src/main/java/com/deepkernel/core/api/AgentWindowController.java:166-182 | A finished request's window is stored, not pending, and names a stored result of its own. |
| ConcurrentIngest.FinishedStatus | server/core/src/main/java/com/deepkernel/core/api/AgentWindowController.java:171-182 | A finished request's window is THREAT exactly for that verdict, SAFE exactly for that one, UNKNOWN exactly for any other. |
| ConcurrentIngest.StoredWindowIs | server/core/src/main/java/com/deepkernel/core/api/AgentWindowController.java:105-115 | At every moment a stored window has its request's container, score and verdict of the model, and is pending without a result until its second save. |
| ConcurrentIngest.StoredResultIs | server/core/src/main/java/com/deepkernel/core/api/AgentWindowController.java:167-168 | A stored result is of its request's window, with that verdict and explanation. |
| ConcurrentIngest.AlwaysTallied | server/core/src/main/java/com/deepkernel/core/api/AgentWindowController.java:166-227 | At every moment of every interleaving, a container's threat windows are as many as its threat requests that have saved theirs, and its policies as many as those that have finished. |
| ConcurrentIngest.AlwaysBalanced | server/core/src/main/java/com/deepkernel/core/api/AgentWindowController.java:198-227 | At every moment, policies of a container plus those about to be stored equal its threat windows. |
| ConcurrentIngest.OnePolicyPerThreat | server/core/src/main/java/com/deepkernel/core/api/AgentWindowController.java:198-227 | At quiescence, as many policies for each container as threat windows. |
| ConcurrentIngest.EnforcedOnceEach | server/core/src/main/java/com/deepkernel/core/api/AgentWindowController.java:93-235 | From scores to policies: with heuristic triage and scores of either engine, the remote threshold at most -0.5, when all requests are served each container has exactly as many policies and threat windows as it had anomalous windows without a dated deployment. |
| ConcurrentIngest.StoredStatusIsDue | server/core/src/main/java/com/deepkernel/core/api/AgentWindowController.java:93-235 | With heuristic triage and scores of either engine, threshold at most -0.5: a finished window is stored THREAT exactly if anomalous without a dated deployment, else SAFE. |
| ConcurrentIngest.ViewStatusIsDue | server/core/src/main/java/com/deepkernel/core/service/ContainerViewService.java:41-69 | And the view shows, at a quiescent moment, that status and the score of the request whose second save came last. |
| ConcurrentIngest.ViewIsOfOneWindow | server/core/src/main/java/com/deepkernel/core/service/ContainerViewService.java:41-69 | Whatever comes between the view's three reads, its verdict, score and explanation are those of one and the same request; a final verdict is that of the request whose second save came last; after quiescence the verdict is final and every container with a request shows one. |
| ConcurrentIngest.LatestAreAlwaysLast | server/core/src/main/java/com/deepkernel/core/repo/AnomalyWindowRepository.java:17-38 | At every moment of every interleaving the container's last decided window is that of the request whose second save came last, and its latest policy that of the threat request that stored its own last. |
| ConcurrentIngest.ViewPolicyIff | server/core/src/main/java/com/deepkernel/core/service/ContainerViewService.java:41-69 | The policy shown is that of the threat request that stored its own last, and beside a final verdict it is that of the window shown if and only if the same request was last in both. |
| ConcurrentIngest.WindowVanishesBriefly | server/core/src/main/java/com/deepkernel/core/repo/AnomalyWindowRepository.java:17-20 | Between the halves of the second save the window is in neither form in the store. |
| Training.ModelRegistryService.GetMeta | server/core/src/main/java/com/deepkernel/core/service/ModelRegistryService.java:32-57 | Answers the latest entry, else caches and answers the ML service's model, else untrained. |
| Training.ModelRegistryService.SetStatus | server/core/src/main/java/com/deepkernel/core/service/ModelRegistryService.java:68-84 | Sets the latest entry's status if its version matches, else does nothing. |
| Training.ModelRegistryService.RemoveLatest | server/core/src/main/java/com/deepkernel/core/service/ModelRegistryService.java:89-97 | Drops the latest entry, and the key with the last one. |
| Training.TrainingService.StartOrchestratedTraining | server/core/src/main/java/com/deepkernel/core/service/TrainingService.java:52-64 | Query, new TRAINING version, job, and on an exception the rollback of both, when served alone. |
| Training.TrainingService.Begin | server/core/src/main/java/com/deepkernel/core/service/TrainingService.java:53-55 | The first step: query, new TRAINING version and job. |
| Training.TrainingService.RollBack | server/core/src/main/java/com/deepkernel/core/service/TrainingService.java:59-63 | The second step if the agent call raises: the container's job and its latest entry go, whosever they are by then. |
| Training.TrainingService.HandleDumpComplete | server/core/src/main/java/com/deepkernel/core/service/TrainingService.java:70-82 | Ends the pending job and makes its version ready; without a job nothing. |
| Training.AlwaysSound | server/core/src/main/java/com/deepkernel/core/service/TrainingService.java:52-82 | In every run versions are consecutive, no key has an empty list, and a pending job's version is the latest entry, in training. |
| Training.FailedStartRollsBack | server/core/src/main/java/com/deepkernel/core/service/TrainingService.java:56-63 | A failing start leaves the registry as it was just after its query. |
| Training.FailedStartIsNeutralIff | server/core/src/main/java/com/deepkernel/core/service/TrainingService.java:56-63 | It leaves the jobs so too if and only if the container had no earlier job. |
| Training.FailedStartStrandsEarlierJob | server/core/src/main/java/com/deepkernel/core/service/TrainingService.java:56-63 | Otherwise the earlier training is stranded: from any run with a job pending, after a failing start every continuation leaves that version's entry in the list, in training. |
| Training.CompletionMakesReady | server/core/src/main/java/com/deepkernel/core/service/TrainingService.java:70-82 | A completion changes exactly the latest entry's status and the job. |
| Training.StatusIsOfLatest | server/core/src/main/java/com/deepkernel/core/service/ModelRegistryService.java:68-84 | Setting a status changes the container's latest entry alone, and only if that is of the version meant. |
| Training.CachedAnswerStays | server/core/src/main/java/com/deepkernel/core/service/ModelRegistryService.java:32-57 | What the ML service answers first is what is answered from then on. |
| ConcurrentTraining.AlwaysAddsUp | server/core/src/main/java/com/deepkernel/core/service/TrainingService.java:52-82 | In every interleaving of starts in two steps, their failures, completions and queries: versions are consecutive, a pending job's version is the latest entry, in training, and there is exactly one entry for each start not failed, after a cached one if any. |
| ConcurrentTraining.QueryAnswers | server/core/src/main/java/com/deepkernel/core/service/ModelRegistryService.java:32-57 | After any interleaving a query answers the cached version, if any, plus the number of starts not failed, in training while a job is pending and ready once that completes; without an entry the ML service's answer, or no model. |
| ConcurrentTraining.RollbackUndoesOwnIff | server/core/src/main/java/com/deepkernel/core/service/TrainingService.java:52-64 | When a start fails, whatever came in between, the entry its rollback removes is its own, still in training, if and only if the container's starts begun since have all been rolled back, no earlier one has, and no completion came first; the registry is then as just after its query. |
| ConcurrentTraining.LoneStartRollsBack | server/core/src/main/java/com/deepkernel/core/service/TrainingService.java:52-64 | In particular with no other start, rollback or completion of the container in between. |
| ConcurrentTraining.RollbackRemovesReady | server/core/src/main/java/com/deepkernel/core/service/TrainingService.java:59-63 | A run in which a completion comes in between and the rollback removes the ready version. |
| TrainingProtocol.ReadyNeedsNotice | server/core/src/main/java/com/deepkernel/core/service/TrainingService.java:70-82 | Only the delivery of an undelivered notice of the container, with its job pending, takes a version from TRAINING to READY. |
| TrainingProtocol.EachReadyHasItsDump | agent/src/agent.cpp:320-348 | In every run over a network that loses and reorders, each such transition is backed by its own closed and announced dump. |
| TrainingProtocol.ReadyAtMostDumps | server/core/src/main/java/com/deepkernel/core/service/TrainingService.java:52-82 | Transitions to READY are at most the dumps closed, and those at most the dumps begun. |
| TrainingProtocol.ReadyFromIff | server/core/src/main/java/com/deepkernel/core/service/TrainingService.java:70-82 | In every world with a job pending and for every b: whatever completes it in any continuation is a notice numbered b or more if and only if the first b notices have been sent and delivered. |
| TrainingProtocol.ReadyOnLaterDumpIff | server/core/src/main/java/com/deepkernel/core/service/TrainingService.java:70-82 | From any world with a job pending, every notice that completes it is that of a dump begun later if and only if no dump of the container is open and every notice of one is delivered. |
| TrainingProtocol.OwnDumpIff | server/core/src/main/java/com/deepkernel/core/service/TrainingService.java:52-82 | After any start, in all continuations the version turns ready only on a dump begun with the start or later, if and only if before the start no dump of the container was open and every notice of one had been delivered. |
| TrainingProtocol.StartOpensItsDump | server/core/src/main/java/com/deepkernel/core/service/TrainingService.java:56-58 | A start whose request arrives while no dump of the container is open opens just the dump it asks for. |
| TrainingProtocol.ReadyOnAnEarlierDump | server/core/src/main/java/com/deepkernel/core/service/TrainingService.java:70-82 | A run without that: a late notice of an earlier dump completes a training whose own request was lost. |
| Fallback.HybridAnomalyAdapter.ScoreWindow | server/anomaly-engine/src/main/java/com/deepkernel/anomaly/engine/HybridAnomalyAdapter.java:62-76 | Returns the remote answer if the call was made and succeeded, the local adapter's own score otherwise; a failure clears the flag. |
| Fallback.HybridAnomalyAdapter.TrainModel | server/anomaly-engine/src/main/java/com/deepkernel/anomaly/engine/HybridAnomalyAdapter.java:79-101 | The local model is trained in every case, whatever becomes of the remote one, which is trained under the same rule. |
| Fallback.HybridAnomalyAdapter.GetModelMeta | server/anomaly-engine/src/main/java/com/deepkernel/anomaly/engine/HybridAnomalyAdapter.java:104-115 | Metadata is chosen under the same rule. |
| Fallback.HybridAnomalyAdapter.ShouldUseRemote | server/anomaly-engine/src/main/java/com/deepkernel/anomaly/engine/HybridAnomalyAdapter.java:120-132 | Checks health when more than five minutes have passed since the last check, and then follows the flag. |
| Fallback.CallByReadings | server/anomaly-engine/src/main/java/com/deepkernel/anomaly/engine/HybridAnomalyAdapter.java:61-138 | One call by its readings alone: more than 300000 ms after the last health check the check it makes decides, within them the flag; the remote answer is returned if that decides for it and it comes; a failure clears the flag. |
| Fallback.FlagFollowsLastCheck | server/anomaly-engine/src/main/java/com/deepkernel/anomaly/engine/HybridAnomalyAdapter.java:120-153 | In every run the flag is set exactly if the last health check answered true and no remote call has raised since. |
| Fallback.AnswersByHistory | server/anomaly-engine/src/main/java/com/deepkernel/anomaly/engine/HybridAnomalyAdapter.java:62-132 | So a recovered service is used from the first call after the interval, and one found down by none until the next check. |
| Fallback.FailuresArePaidFor | server/anomaly-engine/src/main/java/com/deepkernel/anomaly/engine/HybridAnomalyAdapter.java:61-153 | In every sequential run failing remote calls never outnumber health checks that found the service up, forced ones included. |
| Fallback.FailuresAmortised | server/anomaly-engine/src/main/java/com/deepkernel/anomaly/engine/HybridAnomalyAdapter.java:120-138 | With a monotone clock and no forced refresh, at most 1 + floor(T / 300001) remote calls fail within T ms of construction. |
| TtlCache.DockerMapper.GetContainerName | agent/src/docker_mapper.cpp:51-96 | Returns an unexpired entry, else resolves and caches the name, empty ones included. |
| TtlCache.ContainerMapper.GetContainerInfo | agent/src/container_mapper.cpp:107-178 | The same, but a process outside any container is not cached and an expired entry is dropped. |
| TtlCache.ContainerMapper.GetContainerName | agent/src/container_mapper.cpp:84-105 | Picks pod name, container name or id of that answer. |
| TtlCache.NameShown | agent/src/container_mapper.cpp:84-105 | The pod's name, after its namespace unless empty or default; else the container's name; else its id. |
| TtlCache.PodNamesAreDistinct | agent/src/container_mapper.cpp:91-96 | Two pods are shown alike exactly if name and namespace agree, no namespace and the default one being the same. |
| TtlCache.AnswersAreFresh | agent/src/docker_mapper.cpp:51-96 | Whatever comes from the cache was resolved for the same cgroup and stored less than a time-to-live earlier, with no clearing between. |
| TtlCache.CacheIsTransparent | agent/src/container_mapper.cpp:107-178 | If the true answer has been constant over the last time-to-live plus resolution latency, the cached answer is what resolving now would give. |
| TtlCache.ResolutionsAreSpaced | agent/src/docker_mapper.cpp:51-96 | Two resolutions of one cgroup, the first positive, are at least a time-to-live apart unless the cache is cleared. |
| ModelStore.IsolationForestModel.Train | ml-service/src/models/isolation_forest.py:76-120 | Succeeds exactly on ten samples or more that form an array and fit; then version, time, count, flag and forest move together; a failed fit only replaces the forest by an unfitted one. |
| ModelStore.IsolationForestModel.Score | ml-service/src/models/isolation_forest.py:122-156 | Untrained scores neutral; trained, the sample's score against the threshold; with its forest lost to a failed fit it raises. |
| ModelStore.ModelRegistry.TrainModel | ml-service/src/models/model_registry.py:98-123 | Looks up or creates, trains, keeps in memory and on success saves; the version returned is the stored one; a save interrupted half-way leaves a file that cannot be loaded. |
| ModelStore.ModelRegistry.GetModel | ml-service/src/models/model_registry.py:76-96 | Memory first, then disk, keeping what was loaded. |
| ModelStore.ModelRegistry.DeleteModel | ml-service/src/models/model_registry.py:189-212 | Deletes memory and file only if the model is in memory, and says so. |
| ModelStore.ModelRegistry.GetModelMeta | ml-service/src/main.py:265-297 | The endpoint answers the found model's metadata, or untrained, also when a file cannot be loaded. |
| ModelStore.EndpointFollowsHistory | ml-service/src/models/model_registry.py:50-172 | With saves and loads succeeding and distinct file names, the endpoint answers the history of successful trainings alone, whatever restarts, lookups and failed trainings lie between. |
| ModelStore.EndpointAnswers | ml-service/src/main.py:265-297 | That answer field by field: name, container, number, time and size of the successful trainings, ready; or version 0, not ready. |
| ModelStore.ScoreFollowsHistory | ml-service/src/models/isolation_forest.py:122-156 | Neutral before the first successful training, then the sample's score against the threshold, unless a failed fit took the forest. |
| ModelStore.RemoteScoreIsScoreOf | ml-service/src/models/isolation_forest.py:122-156 | That score is the one the triage of a remotely scored window is proved about. |
| ModelStore.TenSamples | ml-service/src/models/isolation_forest.py:86-87 | Ten samples are enough, nine are not. |
| ModelStore.FilesDistinctIff | ml-service/src/models/model_registry.py:50-53 | For every set of ids: in every such run the endpoint follows each container's own history if and only if no two of the ids share a file name. |
| ModelStore.PathsCollideIff | ml-service/src/models/model_registry.py:50-53 | Two ids share a file name exactly if they differ only in slashes, backslashes and underscores. |
| ModelStore.RestartIsTransparent | ml-service/src/models/model_registry.py:297-311 | Dropping memory at any point of any run leaves every container's answer as it was. |
| ModelStore.TrainingCountsUp | ml-service/src/models/model_registry.py:98-123 | Successive trainings return 1, 2, 3, ... across restarts until an effective deletion. |
| ModelStore.DeleteAfterRestartIff | ml-service/src/models/model_registry.py:189-212 | A deletion just after a restart leaves the same answer as one just before exactly when the model was not in memory or had no file. |
| ModelStore.LookupMakesDeletable | ml-service/src/models/model_registry.py:76-96 | A lookup after the restart makes the deletion take model and file. |
| ModelStore.UnsavedTrainingIsForgotten | ml-service/src/models/model_registry.py:287-295 | At any point of any run, a training survives a restart that follows exactly if its save succeeded; if the file did not open the model before it comes back, if the save was interrupted none. |
| ModelStore.FailedRefitBreaksScoring | ml-service/src/models/isolation_forest.py:93-105 | A training whose fit raises leaves the answer as it was, but every score raises exactly if the model had been trained before, in every continuation without a restart, a deletion or a successful training; such a training cures it, and so does a restart while the disk is healthy. |
| ModelStore.SharedFileMixesContainers | ml-service/src/models/model_registry.py:50-53 | Such ids: "a/b" and "a_b" share a file, and a restart then answers one with the other's model. |

## Left out

- eBPF programs, ring buffer, sockets, curl, Docker and crictl calls, `/proc` and regular expressions: outcomes are parameters; a post is an entry in a log, whether or not it reaches the server.
- HTTP routes: a completion is handed straight to its handler, although the agent posts to `/api/v1/agent/long-dump-complete` and the server maps `/dump-complete`.
- `mapContainerId` and the filter expression: an event comes with its container id and whether the filter accepts it.
- Concurrency inside the agent: each callback and each dump request is one atomic step.
- AgentImpl.Agent.RequestLongDump: does not model two streams on one file; the bytes stay with the stream, so dumps whose second-resolution names coincide are not shown overwriting each other.
- AgentImpl.Agent.StopExpiredLongDumps: gives the order of posts per container only; across containers it is the hash table's.
- AgentImpl.Agent.NotifyDumpComplete: counts records without the 64-bit wrap, which 2^64 writes would need.
- DumpFormat.HeaderRoundTrip: gives the id as bytes; decoding them as UTF-8 is not modelled.
- Trace.BuildWindowRecords: gives the numbers of the payload, not its JSON text.
- Features.JavaExtract: uses exact reals where the server uses doubles and floats, and unbounded integers for its 32-bit sums; so does Features.PyExtract.
- Durations.ServerDurationIsTrue: only for deltas that fit the server's 32-bit field; how the server turns others away is not modelled.
- Scoring.ScoreOfWindow: on exact reals, for windows of at most 2^31 - 1 records, the size of a Java list.
- ConcurrentIngest.AlwaysConsistent: ids are fresh by construction; live events and the message broker are left out.
- Ingest.AgentWindowController.IngestWindow: the window's two timestamps, the summary text in the change context, the live events and sending the policy to the agent are left out, as nothing modelled reads them.
- Training.TrainingService.StartOrchestratedTraining: atomic here; `ConcurrentTraining` lets other requests come between its two steps, but not between the registry calls within a step. Version numbers are unbounded; feature version and metrics are constants of the source and left out.
- Training.TrainingService.RollBack: its two removals are one step.
- ModelStore.ModelRegistry.GetModelMeta: the answer's feature version and parameters are constants of the configuration and left out.
- The catch in `handleDumpComplete`: setting a status raises nothing, so its rollback is never reached.
- Fallback.FailuresAmortised: for sequential calls; concurrent ones can fail together under one health check.
- TtlCache.ResolutionsAreSpaced: for lookups one after another; the source releases its lock while it resolves.
- ModelStore.ModelRegistry.TrainModel: models are values, so a caller holding the object across a training is not shown seeing it change.
- scikit-learn's forest, `list_models`, `get_model_stats`, simulation state and the other demonstration entry points.
- The language-model path of triage, its prompts and its proposed policies, and the contents of a policy.
- Legacy training, synchronisation from the ML service, cache clearing and the event, policy and container repositories beyond a list or a set: they would add only easy members.
- The user interface, configuration loading, `classify_arg_class` and retry backoff.
