# Verified core of the HighLoad systems repository

A Dafny model of the three parts of the repository that hold state worth arguing about, with proofs of what they keep
over every input, every run and every interleaving.

**The sharded cache** (`cache/cache.h`). `ShardedCache` is the step system of `n` shards with a queue and a worker
each: submissions, the loop test, the critical section of the worker, the execution of a task, and a stop may happen
in any order. The ghost log records the submissions. The main results compare the shards with one plain map: after any
run each shard plus its pending tasks is the replay of its own submissions, at quiescence the union of all shards is
the plain map fed the whole log, every `get_async` answers as if it ran at its submission, and contents and answers
depend only on the order of the submissions for each key: not on the number of shards, the hash or the schedule.
`ShardClasses` holds the classes `Shard` and `Cache` with the loops, proved to take only steps of that system. There
an idle worker may always take a task; `ShardWaiting` justifies that for one shard, with the notification of
`push_task`, the sleep of the worker and wake-ups for no reason as steps of their own, and shows exactly when the join
in `~Shard` may hang.

**The server core** (`HTTP-server-cpp`). `ThreadPool` is the step system of the condition-variable pool with sleeping,
awake, running and exited workers and outstanding notifications; `Server` is the ownership of sockets between the
event loop and the pool; `TtlCache` is the cache with lazy and bulk expiry; `HttpParser` is the request handler with
its memoised answers and its framing, and `HttpMeaning` says what is answered to the text of a request.

**The image processor** (`image_processor`). `Pictures`, `Blur` and `Filters` are the meaning of the filters on
pictures, `FilterMeaning` spells them out pixel by pixel in plain arithmetic, `FilterLaws` says which of them may
trade places, and `Grid` which of them keep multiples of 1/255; `Images` holds the mutable image with its two arrays
and the loops that refine that meaning; `Bmp`, `BmpLayout` and `ImageFiles` are the file format and the loops that
read and write it; `ArgParser` is the command line; `Program` puts everything together, from the arguments and the
files before a run to the files after it. `Sums` has the finite sums, `Decimal` decimal notation, `FilterTypes` the
filters and integer conversions. `double` is modelled as `real`, so all results about filters are results in exact
arithmetic. The functions of `<cmath>` are a parameter of which only `sin² + cos² = 1`, the defining property of the
square root and a bell function that is never negative and positive at its centre are required. Some lemmas need a
little more: `TunnelZeroStrength`, `LooksIs` and `TunnelIs` that `atan2` gives the angle of a vector, the last two
also the addition formulas, and `KeepsGridIff` that the bell is positive one step from its centre, where it is at
least e⁻² whenever sigma is 0.5 or more.

Four things that one might expect of the code are false, and are answered by the exact condition under which they
hold: reading one's own writes with `get_sync` (`GetSyncFreshIff`, `GetSyncCanBeStale`; `cache/tests/test.cpp:9-16`
expects it, `cache/README.md:12` does not promise it), the return of the join in `~Shard` (`MayHangIff`,
`FreshShardMayHang`), a readable length in every HTTP answer (`FramedIff`, `PutIsUnframed`), and the equality of
writing and reading a file (`WriteReadIff`, `TrailingByteLost`). The two border rules of a two-pass blur and of one
convolution also differ; they agree exactly where `BorderRulesAgreeIff` says.

## Model

| member | source | states |
|---|---|---|
| `ShardedCache.RunInv` | cache/cache.h:33-91 | over every run each shard holds the effect of the submissions it has executed and has exactly the others pending in order, each promise is resolved iff its read has executed, and then with its linearised value |
| `ShardedCache.RunLog` | cache/cache.h:116-139 | the log of a run is exactly the sequence of its submissions, whatever the workers do |
| `ShardedCache.HomeIs` | cache/cache.h:99-101 | the home shard is the remainder of the hash by the number of shards |
| `ShardedCache.ClientsNeverWait` | cache/cache.h:116-139 | in every reachable state every submission is possible |
| `ShardedCache.ShardRefinement` | cache/cache.h:33-51 | after any run, applying the task in flight and the queue to a shard's map gives the replay of all submissions whose key lives there |
| `ShardedCache.RoutedLookup` | cache/cache.h:99-101 | what a key maps to in the plain map of the whole log depends only on the submissions to its home shard |
| `ShardedCache.QuiescentUnion` | cache/cache.h:33-51 | when nothing is pending the union of the shards is the one plain map fed all submissions in order |
| `ShardedCache.GetAsyncLinearised` | cache/cache.h:116-125 | a resolved read holds the key's value in the plain map of exactly the submissions before it |
| `ShardedCache.QuiescentResolved` | cache/cache.h:116-125 | when nothing is pending exactly the submitted reads are resolved |
| `ShardedCache.Confluence` | cache/cache.h:99-139 | two runs in which every key has the same submissions in the same order end with the same union, and reads at the same place among the submissions for their key have the same answer, for any two shard counts, hashes and schedules |
| `ShardedCache.SameOrderConfluence` | cache/cache.h:99-139 | if all submissions come in one order the promises agree one by one |
| `ShardedCache.PromiseSetOnce` | cache/cache.h:120-122 | a read in flight is never resolved yet, so no promise is set twice |
| `ShardedCache.RunMonotone` | cache/cache.h:33-51 | along every run answers once given stay, and the log and the execution counters only grow |
| `ShardedCache.ReadPointValue` | cache/cache.h:66-73 | a `get_sync` returns the key's value in the plain map of the prefix of the log at its read point |
| `ShardedCache.GetSyncReadsGrowingPrefix` | cache/cache.h:111-114 | of two reads of one key in a run the later one sees a prefix at least as long |
| `ShardedCache.LastWriteDecides` | cache/cache.h:75-83 | replaying tasks leaves a key as the last set or remove of it says, and untouched without one |
| `ShardedCache.GetSyncFreshIff` | cache/cache.h:111-114 | exactly when `get_sync` agrees with everything submitted: no pending write of the key, or the last one changes nothing |
| `ShardedCache.GetSyncCanBeStale` | cache/cache.h:111-132 | a concrete run in which `get_sync` right after `set_async` finds nothing |
| `ShardedCache.AfterStop` | cache/cache.h:34-49 | once a shard is stopped its worker completes at most one more task, and the executed tasks stay a prefix of the submissions |
| `ShardedCache.StopSets` | cache/cache.h:58-60 | at the end of a run the flag of a shard is set iff it was set before or the run contains its stop |
| `ShardedCache.AfterStopExactly` | cache/cache.h:34-49 | when the worker of a stopped shard has gone it has completed exactly the task in flight, or exactly the first of the queue if it was at its wait, or none if it was at the loop test |
| `ShardedCache.DrainBound` | cache/cache.h:33-51 | with no stop and no new submission the number of worker steps is bounded by the outstanding work |
| `ShardedCache.DrainProgress` | cache/cache.h:33-51 | the workers can make no step exactly when nothing is pending and all of them wait, where a worker may leave its wait as soon as its predicate holds |
| `ShardClasses.Shard.Find` | cache/cache.h:66-73 | the value stored under the key, or none |
| `ShardClasses.Shard.PushTask` | cache/cache.h:85-91 | is the submission step of the step system on this shard |
| `ShardClasses.Shard.RunTask` | cache/cache.h:120-137 | running a closure is the execution step, and resolves the promise of a read with the map's value at that moment |
| `ShardClasses.Shard.TakeAndRun` | cache/cache.h:43-49 | pops the first task and runs it with other threads pushing in between; everything done is a run of the step system |
| `ShardClasses.Shard.WorkerLoop` | cache/cache.h:33-51 | whatever is pushed or stopped before each step of the worker and while it waits, the loop is a run of the step system; executed tasks followed by the queue are the first queue followed by all pushes, and the map and the promises are those of replaying what was executed |
| `ShardClasses.Cache.constructor` | cache/cache.h:104-109 | a cache with the given positive number of empty shards, each its own object |
| `ShardClasses.Cache.GetSync` | cache/cache.h:111-114 | the value in the map of the key's home shard, past its queue |
| `ShardClasses.Cache.Submit` | cache/cache.h:85-101 | pushes onto the queue of the home shard and touches no other shard |
| `ShardClasses.Cache.SetAsync` | cache/cache.h:127-132 | the shards change as in the submission step of a set, and one more promise name is used up |
| `ShardClasses.Cache.RemoveAsync` | cache/cache.h:134-139 | the shards change as in the submission step of a remove, and one more promise name is used up |
| `ShardClasses.Cache.GetAsync` | cache/cache.h:116-125 | the shards change as in the submission step of a read, and the returned promise is the number of earlier submissions |
| `ShardWaiting.NoLostWakeup` | cache/cache.h:33-91 | in every run the worker sleeps on a queued task only while the notification of a push is outstanding |
| `ShardWaiting.RestBound` | cache/cache.h:33-91 | without further pushes the steps of the worker and the outstanding notifications are bounded |
| `ShardWaiting.RestsIff` | cache/cache.h:33-91 | before the destructor they come to an end exactly when every task has been taken, every notification made, and the worker sleeps |
| `ShardWaiting.JoinReturnsIff` | cache/cache.h:33-64 | after the notification of the destructor every run is short, and one that cannot go on has the worker gone iff it was not between checking its predicate and sleeping, or it woke up for no reason |
| `ShardWaiting.MayHangIff` | cache/cache.h:58-64 | when no call is under way, some run of the destructor hangs in the join iff the worker is not asleep at its beginning; if the worker may wake up for no reason, in any case |
| `ShardWaiting.HangFrom` | cache/cache.h:58-64 | such a run, from every state with the worker awake, whatever is queued |
| `ShardWaiting.FreshShardMayHang` | cache/cache.h:54-64 | a shard destroyed right after it was made may hang |
| `ThreadPool.RunInv` | HTTP-server-cpp/src/thread_pool.cpp:5-40 | every run keeps the invariants on jobs, wake-ups and exits |
| `ThreadPool.NoLostWakeup` | HTTP-server-cpp/src/thread_pool.cpp:11-38 | in every reachable state with a sleeping worker the queue is no longer than outstanding notifications plus awake workers, and a requested stop has its `notify_all` outstanding |
| `ThreadPool.NoStrandedJob` | HTTP-server-cpp/src/thread_pool.cpp:12-15 | with a queued job, a sleeper and no notification outstanding some worker is awake and can take the job |
| `ThreadPool.JobsConserved` | HTTP-server-cpp/src/thread_pool.cpp:8-18 | enqueued = queued + running + finished; jobs are taken in order of arrival, each at most once, and held in one place |
| `ThreadPool.DrainedAtExit` | HTTP-server-cpp/src/thread_pool.cpp:13-31 | when all of n > 0 workers have exited the queue is empty and every job ever enqueued, also by jobs, has run exactly once |
| `ThreadPool.ShutdownBound` | HTTP-server-cpp/src/thread_pool.cpp:23-31 | after a stop the length of every run is bounded by a measure of the state plus four steps for each job spawned on the way |
| `ThreadPool.ShutdownProgress` | HTTP-server-cpp/src/thread_pool.cpp:23-31 | after a stop some step is possible until all workers have exited, so the joins return |
| `ThreadPool.StopSets` | HTTP-server-cpp/src/thread_pool.cpp:23-27 | the flag is set at the end of a run iff it was set before or the run contains the request |
| `ThreadPool.ShutdownRuns` | HTTP-server-cpp/src/thread_pool.cpp:5-31 | every run that contains the request can be continued until all workers have gone, the queue is empty and every job has run |
| `ThreadPool.Pool.Take` | HTTP-server-cpp/src/thread_pool.cpp:11-16 | the critical section agrees with the `Check` step of the step system: leave, sleep, or take the first job |
| `ThreadPool.QueueConserved` | HTTP-server-cpp/src/thread_pool.cpp:7-40 | in every run all takings in order followed by the queue are the first queue followed by all arrivals |
| `ThreadPool.Pool.WorkerLoop` | HTTP-server-cpp/src/thread_pool.cpp:7-19 | whatever the others do in batches before each step of this worker and while it sleeps, everything together is a run of the step system and keeps its invariants; the worker executes exactly what it takes, in order, and leaves only with a stop and an empty queue |
| `Server.RunInv` | HTTP-server-cpp/src/server.cpp:47-116 | every run keeps the ownership invariant |
| `Server.SingleOwner` | HTTP-server-cpp/src/server.cpp:54-82 | no descriptor is both watched and owned by a job, no two jobs own the same one, all of them are open, and every watched one is at most `max_fd` |
| `Server.StageCounts` | HTTP-server-cpp/src/server.cpp:60-115 | a number that goes through accept, hand-off and close in turn has counts of the three that differ by exactly what is in progress |
| `Server.OncePerAccept` | HTTP-server-cpp/src/server.cpp:60-115 | at every moment of every run each accept has led to at most one job and at most one close, also when a number is used again within one scan |
| `Server.ScanDispatchesAll` | HTTP-server-cpp/src/server.cpp:60-83 | when a scan ends every client reported ready has been handed to the pool in this pass |
| `Server.AcceptedIsWatched` | HTTP-server-cpp/src/server.cpp:62-66 | a connection that is accepted is open, watched, and at most `max_fd` |
| `Server.EventLoop.AcceptConnection` | HTTP-server-cpp/src/server.cpp:63-64 | no connection, or any number that is not open |
| `Server.EventLoop.HandleClient` | HTTP-server-cpp/src/server.cpp:89-116 | what is sent is a prefix of the response, all of it unless a send fails and nothing after a failed receive; the descriptor is closed exactly once on every path |
| `Server.EventLoop.ScanIndex` | HTTP-server-cpp/src/server.cpp:60-82 | one index of the scan is the scan step of the step system |
| `Server.EventLoop.Pass` | HTTP-server-cpp/src/server.cpp:55-83 | one turn keeps ownership whatever the pool does meanwhile, and hands every ready client to the pool |
| `TtlCache.ErasureUnobservable` | HTTP-server-cpp/src/cache.cpp:7-37 | under a clock that does not go back all lookups of any sequence of operations answer as if nothing were ever erased |
| `TtlCache.GetReturnsLastPut` | HTTP-server-cpp/src/cache.cpp:15-25 | from an empty cache a lookup answers the last value put under the key iff that put has not expired, and the sentinel otherwise |
| `TtlCache.FoundUntilExpiry` | HTTP-server-cpp/src/cache.cpp:7-25 | after any operations under a clock that does not go back, a value put last at t for ttl is found strictly before t + ttl, and from then on `Not Founded` |
| `TtlCache.NeverPutNotFound` | HTTP-server-cpp/src/cache.cpp:15-25 | a key that was never put is `Not Founded` |
| `TtlCache.ErasedIff` | HTTP-server-cpp/src/cache.cpp:15-37 | a sweep leaves exactly the entries that have not expired; a lookup erases its own key iff it has expired, and no other |
| `TtlCache.RememberedIsLastPut` | HTTP-server-cpp/src/cache.cpp:7-13 | what the reference remembers of a key is its last put in the sequence |
| `TtlCache.ClockMustNotGoBack` | HTTP-server-cpp/src/cache.cpp:15-25 | with a clock that goes back an erased entry is missed, by a concrete sequence |
| `TtlCache.Cache.Put` | HTTP-server-cpp/src/cache.cpp:7-13 | the entry is replaced by the value with its expiry |
| `TtlCache.Cache.Get` | HTTP-server-cpp/src/cache.cpp:15-25 | the value before the expiry, the sentinel otherwise; an expired entry is erased and nothing else changes |
| `TtlCache.Cache.Cleanup` | HTTP-server-cpp/src/cache.cpp:27-37 | exactly the expired entries are erased, in whatever order they are visited |
| `HttpParser.ReadHeadOfRender` | HTTP-server-cpp/src/http_parser.cpp:23-26 | reading a rendered head gives back its lines and the bytes after the blank line (RFC 9112, section 2.1) |
| `HttpParser.FindBlankLine` | HTTP-server-cpp/src/http_parser.cpp:32-38 | the first position of a blank line, or none if there is none |
| `HttpParser.BodyFramed` | HTTP-server-cpp/src/http_parser.cpp:22-26 | the Content-Length of an answer with a body is the number of bytes after the blank line (RFC 9110, section 8.6; RFC 9112, section 6.3) |
| `HttpParser.FramedIff` | HTTP-server-cpp/src/http_parser.cpp:16-66 | an answer has a readable and correct length iff the method is GET or POST |
| `HttpParser.PutIsUnframed` | HTTP-server-cpp/src/http_parser.cpp:64-66 | the answer to a concrete PUT request has no readable length |
| `HttpParser.MemoAlways` | HTTP-server-cpp/src/http_parser.cpp:16-29 | whatever the workers put, get and sweep, every entry is the response that would be computed again |
| `HttpParser.MemoisationTransparent` | HTTP-server-cpp/src/http_parser.cpp:17-29 | after any operations of the server and at any time, a GET answers the same function of the path, and only a real miss looks like one |
| `HttpParser.HandleRequest` | HTTP-server-cpp/src/http_parser.cpp:9-67 | the reply is a function of the request alone, whatever is cached, whatever the clock says and whatever other threads do between the lookup and the store; a GET that misses stores its reply for 60 seconds, anything else leaves the cache alone |
| `HttpMeaning.GetIs` | HTTP-server-cpp/src/http_parser.cpp:10-30 | for every path without white space, and any white space around the words of the request, a client reads status 200, the right length and the body `Hello from GET ` with that path |
| `HttpMeaning.GetLine` | HTTP-server-cpp/src/http_parser.cpp:10-30 | the same with single spaces and any text after the path |
| `HttpMeaning.PostIs` | HTTP-server-cpp/src/http_parser.cpp:31-62 | a POST is answered with what the JSON library makes of the text after the first blank line, or with `Invalid JSON` and status 400 |
| `HttpMeaning.PostWithoutBody` | HTTP-server-cpp/src/http_parser.cpp:32-37 | a POST without a blank line is answered with status 400 and no body |
| `HttpMeaning.OtherIs` | HTTP-server-cpp/src/http_parser.cpp:64-66 | any other method is answered with status 501 and a length field that runs into the next one |
| `ArgParser.CheckInteger` | image_processor/src/fabrics.cpp:4-14 | accepts exactly the strings of at most nine digits |
| `ArgParser.CheckFloat` | image_processor/src/fabrics.cpp:16-33 | accepts exactly the strings of at most nine digits and dots with at most one dot |
| `ArgParser.CheckNotNull` | image_processor/src/fabrics.cpp:35-43 | accepts exactly the strings with a character other than zero and dot |
| `ArgParser.FixedRoundTrip` | image_processor/src/fabrics.cpp:65-73 | a printed decimal number of at most nine characters is accepted and read back exactly |
| `ArgParser.IntegerRoundTrip` | image_processor/src/fabrics.cpp:45-51 | a printed number is accepted iff it is below 10^9, and read back exactly |
| `ArgParser.NineDigits` | image_processor/src/fabrics.cpp:4-14 | the accepted whole numbers are the strings of at most nine decimal digits, below 10^9 |
| `ArgParser.PointValue` | image_processor/src/fabrics.cpp:65-73 | digits, a dot and digits, either part possibly empty, are accepted and mean the number they denote |
| `ArgParser.ParseConcat` | image_processor/src/parser.cpp:37-73 | an accepted argument list keeps its meaning whatever follows: parsing a ++ b is parsing a, then b |
| `ArgParser.PrintParse` | image_processor/src/parser.cpp:37-73 | parsing the printed form of any list of filters gives that list |
| `ArgParser.UnknownOptionIgnored` | image_processor/src/parser.cpp:39-72 | an unknown option between two accepted lists changes nothing |
| `ArgParser.NoDashRefused` | image_processor/src/parser.cpp:39-41 | an argument without a dash where an option is expected is refused, wherever it stands |
| `ArgParser.MissingArguments` | image_processor/src/parser.cpp:42-69 | an option with too few arguments left is refused |
| `ArgParser.BadCropRefused` | image_processor/src/fabrics.cpp:45-51 | a crop to a size that is not a whole number, too long or zero is refused |
| `ArgParser.CropIs` | image_processor/src/fabrics.cpp:45-51 | every other crop is accepted, its sizes converted to sixteen bits |
| `ArgParser.CommandIff` | image_processor/src/parser.cpp:23-37 | help for no arguments; a run iff there are two paths, the first of a regular file, and all options are accepted |
| `ArgParser.Parser.PushCrop` | image_processor/src/fabrics.cpp:45-51 | appends the crop exactly when both arguments are positive integers |
| `ArgParser.Parser.PushTunnel` | image_processor/src/fabrics.cpp:75-82 | appends the tunnel exactly when all four arguments are accepted |
| `ArgParser.Parser.Parse` | image_processor/src/parser.cpp:23-74 | the loop over the arguments computes the recursive parse, errors and help included |
| `Pictures.Source` | image_processor/src/image.cpp:32-54 | the border rule reads inside the picture for every tap, also of kernels larger than the picture |
| `Pictures.Convolve` | image_processor/src/image.cpp:13-71 | a picture of the same size whose channels are the clamped weighted sums, between 0 and 1 |
| `FilterMeaning.OneTapReads` | image_processor/src/image.cpp:32-63 | a kernel with a single 1 shows the pixel at that offset, each negative coordinate reflected, or the pixel itself if that lies outside, for every odd kernel and every offset in it |
| `FilterMeaning.WeightedLinear` | image_processor/src/image.cpp:30-63 | the sums before the clamp are linear in the kernel, so that single taps determine them |
| `Pictures.WeightedBounds` | image_processor/src/image.cpp:25-63 | averaging kernels keep the sums within the bounds of the channel |
| `Pictures.MaximumPrinciple` | image_processor/src/image.cpp:13-71 | averaging kernels keep the bounds of every channel, and their clamp does nothing |
| `Pictures.ConstantPicture` | image_processor/src/image.cpp:13-71 | on one colour c a kernel of sum s gives the clamped s·c everywhere, borders included |
| `Pictures.NegativeCommutes` | image_processor/src/filter.cpp:40-52 | a convolution by a kernel of sum 1 commutes with the negative, clamping and borders included |
| `Pictures.GreyCommutes` | image_processor/src/filter.cpp:28-38 | a convolution by a non-negative kernel of sum 1 commutes with the conversion to grey |
| `Pictures.NegationTwice` | image_processor/src/filter.cpp:40-47 | the negative of the negative is the picture |
| `Blur.BorderRulesAgreeIff` | image_processor/src/image.cpp:35-54 | the border rule of one convolution is that of two separate passes exactly when neither axis overshoots at its high end, or the other axis has one line |
| `Blur.PassUnclamped` | image_processor/src/image.cpp:65-67 | the clamp after each pass does nothing |
| `Blur.Separable` | image_processor/src/filter.cpp:69-79 | row pass, transposition and column pass are one unclamped two-dimensional sum with products of weights and one border rule per axis |
| `Blur.SeparableFlipped` | image_processor/src/filter.cpp:69-79 | the passes in the other order are the sum over the transposed table |
| `Blur.PassesCommute` | image_processor/src/filter.cpp:74-77 | the two passes commute, borders included |
| `Blur.OuterProductInside` | image_processor/src/filter.cpp:69-79 | wherever the border rules agree the blur equals one convolution by the outer-product kernel |
| `Blur.BlurBounds` | image_processor/src/filter.cpp:69-79 | the blur keeps the bounds of every channel |
| `Blur.BlurNegative` | image_processor/src/filter.cpp:40-79 | the blur commutes with the negative |
| `Blur.BlurGrey` | image_processor/src/filter.cpp:28-79 | the blur commutes with the conversion to grey |
| `Blur.GaussianIsAveraging` | image_processor/src/filter.cpp:81-103 | the computed kernel is non-negative, symmetric and adds up to one |
| `FilterMeaning.WeightRatio` | image_processor/src/filter.cpp:86-101 | two entries of the kernel are to each other as the bell at the squared distances of their columns |
| `FilterMeaning.BlurIs` | image_processor/src/filter.cpp:69-103 | every channel of a blur spelled out: the sum over the odd window next to four sigmas of bell times bell times pixel, one plain border rule per axis, divided by the square of the sum of the bell |
| `FilterMeaning.BlurZeroThrows` | image_processor/src/filter.cpp:82-84 | sigma zero throws |
| `Filters.KernelConstants` | image_processor/include/filter.h:58-71 | the sharpening kernel adds up to 1 and the edge kernel to 0 |
| `FilterMeaning.NegativeIs` | image_processor/src/filter.cpp:40-47 | running the negative gives one minus each channel |
| `FilterMeaning.GrayscaleIs` | image_processor/src/filter.cpp:28-38 | running the conversion to grey gives 0.299, 0.587 and 0.114 of red, green and blue in every channel |
| `FilterMeaning.SharpeningIs` | image_processor/src/filter.cpp:49-52 | running the sharpening gives five times each channel minus its four neighbours, clamped, with a plain border rule |
| `FilterMeaning.EdgeDetectionIs` | image_processor/src/filter.cpp:54-67 | running the edge detection gives black where four times the grey minus the greys of the four neighbours, clamped, is at most the threshold, and white elsewhere |
| `FilterMeaning.EdgeInside` | image_processor/src/filter.cpp:54-67 | the same away from the borders, spelled out in the channels of the picture |
| `FilterMeaning.CropIs` | image_processor/src/filter.cpp:9-26 | running a crop keeps the top left part of the smaller size, and a negative size, read as unsigned, cuts nothing |
| `Filters.SharpenNegative` | image_processor/src/filter.cpp:40-52 | sharpening commutes with the negative for every picture |
| `Filters.NoEdgesOnConstant` | image_processor/src/filter.cpp:54-67 | a picture of one colour is all black after edge detection with a threshold of at least 0 |
| `Filters.CropTwice` | image_processor/src/filter.cpp:9-26 | two crops are one crop to the smaller sizes |
| `Filters.TunnelKeepsDisc` | image_processor/src/filter.cpp:123-147 | the centre and every pixel at the radius or farther stay; every other pixel shows an in-image pixel no farther from the centre |
| `FilterMeaning.LooksIs` | image_processor/src/filter.cpp:126-143 | inside the radius and off the centre the tunnel shows the pixel at the offset from the centre turned by strength times (1 - distance / radius), cut to whole pixels, if that lies in the picture, given the addition formulas and that `atan2` gives the angle of a vector |
| `FilterMeaning.TunnelIs` | image_processor/src/filter.cpp:105-150 | running the tunnel throws iff the centre, where 0 stands for the middle, lies outside, and otherwise shows at every pixel where it looks |
| `Filters.TunnelZeroStrength` | image_processor/src/filter.cpp:123-147 | with strength 0 the tunnel is the identity |
| `Filters.BlurFitsIff` | image_processor/src/filter.cpp:70-90 | the kernel size and all squared distances stay in `int32_t` iff four times sigma is below 92682 |
| `Filters.RunFilters` | image_processor/src/handler.cpp:3-9 | a list of filters that does not throw gives a well-formed picture, no larger than before, with all channels in [0, 1] |
| `Filters.RunConcat` | image_processor/src/handler.cpp:3-9 | running a ++ b is running a and then b, throwing included |
| `FilterLaws.CropMap` | image_processor/src/filter.cpp:9-47 | a crop commutes with every filter of single pixels |
| `FilterLaws.TunnelMap` | image_processor/src/filter.cpp:105-150 | the tunnel commutes with every filter of single pixels |
| `FilterLaws.GreyNegative` | image_processor/src/filter.cpp:28-47 | the grey of the negative is the negative of the grey: the weights add up to one |
| `FilterLaws.NegativeSlides` | image_processor/src/filter.cpp:9-150 | every filter but edge detection may trade places with the negative, and throws in one order iff in the other |
| `FilterLaws.NegativeMoves` | image_processor/src/handler.cpp:3-9 | a negative may move across any list without edge detection |
| `FilterLaws.EdgesDoNotSlide` | image_processor/src/filter.cpp:54-67 | edge detection is a real exception: on a picture of one colour the two orders differ at every pixel |
| `FilterLaws.GreySlides` | image_processor/src/filter.cpp:9-150 | every filter but sharpening may trade places with the conversion to grey |
| `FilterLaws.GreyMoves` | image_processor/src/handler.cpp:3-9 | a conversion to grey may move across any list without sharpening |
| `FilterLaws.SharpenValue` | image_processor/src/filter.cpp:49-52 | a sharpened channel before the clamp is five times the pixel minus its four neighbours under the border rule |
| `FilterLaws.SharpeningDoesNotSlide` | image_processor/src/filter.cpp:28-52 | sharpening is a real exception: on a concrete picture of two pixels the two orders differ |
| `Grid.IntegerKernelKeepsGrid` | image_processor/src/image.cpp:13-71 | a convolution by a kernel of integers keeps channels that are multiples of 1/255 |
| `Grid.SmallBlurIsIdentity` | image_processor/src/filter.cpp:69-79 | a blur with a single weight changes nothing |
| `Grid.WideBlurLeavesGrid` | image_processor/src/filter.cpp:69-79 | a blur with weight at its centre and beside it takes a concrete picture off the multiples of 1/255 |
| `Grid.GreyLeavesGrid` | image_processor/src/filter.cpp:28-38 | so does the conversion to grey |
| `Grid.KeepsGridIff` | image_processor/src/filter.cpp:9-150 | a filter keeps multiples of 1/255 on every picture iff it is not the conversion to grey and not a blur with sigma of 0.5 or more |
| `Images.Matrix.Transpose` | image_processor/src/matrix.cpp:4-12 | the stored matrix becomes its transposition |
| `Images.TransposeTwice` | image_processor/src/matrix.cpp:4-12 | transposing twice gives the matrix back |
| `Images.CalcMatrix` | image_processor/src/filter.cpp:81-103 | the two loops compute the normalised row of weights |
| `Images.Image.TapSource` | image_processor/src/image.cpp:32-54 | the branches of the inner loop compute the border rule and always read inside the picture |
| `Images.Image.SumTaps` | image_processor/src/image.cpp:27-63 | the two inner loops leave the weighted sum in the buffer cell and touch no other cell |
| `Images.Image.Multiply` | image_processor/src/image.cpp:13-71 | after the swap the pixels are the convolution of the old pixels, whatever the buffer held, and both arrays keep the exact size |
| `Images.Image.MapPixels` | image_processor/src/filter.cpp:28-47 | the loops over lines and pixels replace every pixel by the function of it |
| `Images.Image.Crop` | image_processor/src/filter.cpp:9-26 | both arrays shrink to exactly the cropped size and keep the pixels that remain; `image_size` comes from the arguments |
| `Images.Image.EdgeDetection` | image_processor/src/filter.cpp:54-67 | grey, convolution and threshold in place compute the edges |
| `Images.Image.Sharpening` | image_processor/src/filter.cpp:49-52 | the pixels become the convolution by the sharpening kernel |
| `Images.Image.GaussianBlur` | image_processor/src/filter.cpp:69-79 | throws iff sigma is zero, and otherwise computes the two-pass blur |
| `Images.Image.Tunnel` | image_processor/src/filter.cpp:105-150 | throws iff the centre lies outside, and then changes nothing; otherwise the pixels are the warped picture |
| `Images.Image.ApplyFilters` | image_processor/src/handler.cpp:3-9 | the loop over the filters runs the list on the mutable image; pixels and buffer always have exactly the size of the picture |
| `Bmp.ByteRoundTrip` | image_processor/include/pixel.h:11-15 | a byte read as a channel is written as the same byte |
| `Bmp.ReadWrittenFields` | image_processor/src/io.cpp:30-67 | header fields that fit their sizes are read back as they were written |
| `BmpLayout.AcceptedIff` | image_processor/src/io.cpp:12-28 | exactly the files that are accepted, in terms of their bytes |
| `BmpLayout.HeaderIs` | image_processor/src/io.cpp:40-67 | every header field is read from its own two or four bytes, the lowest first |
| `BmpLayout.PixelIs` | image_processor/src/io.cpp:68-91 | in every accepted file with all its rows the pixel at row r and column c has blue, green and red from the three bytes at 54 + (h - 1 - r) * ((3w + 3) / 4 * 4) + 3c, each divided by 255 |
| `BmpLayout.MissingByte` | image_processor/src/io.cpp:73-83 | of a byte that is missing in a truncated file the one of the last row that has it is used, and 0 if there is none |
| `BmpLayout.WrittenLength` | image_processor/src/io.cpp:163-185 | a written file has 54 + h * ((3w + 3) / 4 * 4) bytes |
| `BmpLayout.WrittenHeader` | image_processor/src/io.cpp:135-162 | its header bytes are those of the header |
| `BmpLayout.WrittenPixel` | image_processor/src/io.cpp:172-178 | its three bytes of a pixel are 255 times blue, green and red, cut down to whole numbers |
| `BmpLayout.WrittenPaddingZero` | image_processor/src/io.cpp:165-168 | all other bytes of its rows are zero |
| `BmpLayout.GetByteIs` | image_processor/src/io.cpp:9-11 | the byte b written for a channel x has b <= 255x < b + 1 |
| `Bmp.WriteReadFields` | image_processor/src/io.cpp:125-162 | writing the header fields that were read gives the same bytes |
| `Bmp.ReadWrite` | image_processor/src/io.cpp:93-198 | reading a written file gives the headers back and each channel rounded down to a multiple of 1/255; covers bottom-up rows, channel order and padding |
| `Bmp.ReadWriteExactIff` | image_processor/src/io.cpp:68-91 | a written image reads back unchanged iff every channel is a multiple of 1/255 |
| `Bmp.WrittenIsCanonical` | image_processor/src/io.cpp:163-185 | a written file has exactly its rows and zero padding |
| `Bmp.ReadIsWritable` | image_processor/src/io.cpp:93-119 | what an accepted file gives, also a truncated one, can be written: fields fit, channels lie in [0, 1] |
| `Bmp.WriteReadIff` | image_processor/src/io.cpp:40-198 | writing what was read gives the same bytes iff the file has exactly its rows and zero padding |
| `Bmp.SuffixIgnored` | image_processor/src/io.cpp:68-119 | bytes after the last row change nothing in what is read |
| `Bmp.TrailingByteLost` | image_processor/src/io.cpp:40-198 | for every image the file written for it with one byte appended is accepted and not written back as it was |
| `ImageFiles.Input.ReadInto` | image_processor/src/io.cpp:36-38 | fills the buffer from the file, and leaves its rest as it was at the end of the file |
| `ImageFiles.ReadAll` | image_processor/src/io.cpp:40-67 | reading one field after another decodes the header |
| `ImageFiles.ReadPixels` | image_processor/src/io.cpp:68-91 | the loops fill the pixels bottom-up, also from a truncated file, where the row buffer keeps old bytes |
| `ImageFiles.ReadImage` | image_processor/src/io.cpp:93-119 | refuses short files and unsupported headers, and otherwise gives the image the format defines |
| `ImageFiles.FillRow` | image_processor/src/io.cpp:172-178 | one row as blue, green, red bytes with the padding untouched |
| `ImageFiles.WritePixels` | image_processor/src/io.cpp:163-185 | the rows in file order, bottom first |
| `ImageFiles.WriteImage` | image_processor/src/io.cpp:187-198 | headers and rows as the format defines |
| `Program.FilteredWritable` | image_processor/src/io.cpp:163-181 | whatever filters ran, the result fits the header fields and its channels fit bytes |
| `Program.ProcessFile` | image_processor/image_processor.cpp:10-20 | reader, filter loop and writer on the mutable image compute the composed functions, or throw where they do |
| `Program.NoFilters` | image_processor/image_processor.cpp:10-20 | without filters the output is the input, byte for byte, iff the input has exactly its rows and zero padding |
| `Program.OutputReadsBack` | image_processor/image_processor.cpp:15-20 | every output is accepted by the reader again and holds the filtered picture up to the byte rounding |
| `Program.OutputHeader` | image_processor/src/io.cpp:135-162 | the header of the output is that of the input but for width, height and image size |
| `Program.LastCropSize` | image_processor/src/filter.cpp:24 | after a last crop to w by h the image size is h * ((3w + 3) / 4 * 4), whatever came before |
| `Program.NegativeBytes` | image_processor/image_processor.cpp:10-20 | from bytes to bytes: the negative of a file with all its rows has every pixel byte subtracted from 255 |
| `Program.ProcessTwice` | image_processor/image_processor.cpp:10-20 | two runs through a file equal one run of both lists if the picture in between has channels k/255 |
| `Program.GridRunsCompose` | image_processor/image_processor.cpp:10-20 | every filter but the conversion to grey and the blurs with sigma of 0.5 or more can be split off into an earlier run |
| `Program.NegativesCancel` | image_processor/src/handler.cpp:3-9 | two adjacent negatives anywhere in the list change no output byte |
| `Program.NegativeMovesInFile` | image_processor/image_processor.cpp:10-20 | moving a negative across a list without edge detection changes no output byte, for any input file |
| `Program.GreyMovesInFile` | image_processor/image_processor.cpp:10-20 | nor does moving a conversion to grey across a list without sharpening |
| `Program.ParsedInRange` | image_processor/src/fabrics.cpp:45-82 | of what the command line accepts only the size of a blur can leave the range of the arithmetic |
| `Program.RunProgram` | image_processor/image_processor.cpp:10-27 | from arguments and files: a run without an error sets the output file and nothing else, any other run changes no file |
| `Program.CommandsCompose` | image_processor/image_processor.cpp:10-27 | two commands through an intermediate file leave the same output as one command with both lists of options, if the first has no conversion to grey and no blur with sigma of 0.5 or more |

## Left out

- Sockets, Winsock and the limits of `fd_set`: `select` reports any subset of the watched set, `accept` returns any number that is not open, `recv` and `send` return anything their interface allows.
- The file system: a map from paths to contents, so that every path is absent or a regular file that can be opened.
- Logging, the text of messages, the help text and the classes of exceptions: only the fact of throwing is modelled.
- The JSON library: whether a body parses, and the text made from it, is a function given to `HandleRequest`; the loop that appends the pairs is not modelled.
- IEEE rounding: filters work on `real`; `std::atof` is read as an exact decimal number, and an empty string or a lone dot as zero.
- The functions of `<cmath>`: parameters with the properties named above.
- `int32_t` overflow: images with `width * 3` or `height` near 2^31 and blurs with `4 * sigma` of 92682 or more are excluded by preconditions. The command line accepts larger blurs.
- Header sizes: `image_size` is modelled as the code computes it from the arguments, wrapped to 32 bits, and `file_size` is never updated; neither is claimed to describe the picture. For a crop of 32767 by 32767 the product in `image_processor/src/filter.cpp:24` is 3221127168, a signed overflow without a defined result; the model wraps it.
- More than one `ReadFile` in a process: the static `buffer` then keeps its old size; the program reads one file.
- ShardedCache.DrainProgress: does not model time or fairness, nor the notification that ends a wait; `ShardWaiting` models the notification for one shard with a count in place of the queue.
- Atomicity finer than one critical section in `Shard` and `ThreadPool`: only the waits and notifications of `ThreadPool` and `ShardWaiting` are split off; the map of a shard and its queue have separate locks, and each is one step.
- `enqueue` from outside the pool while the pool is being destroyed: not modelled; jobs that enqueue jobs then are.
- `~Cache`, `alignas`, padding, `reserve` and `MAX_KEYS`: memory layout only.
- `messager-cpp`, `metro-maps-cpp`, `account-manager-py` and the echo servers: thin wrappers over libraries and input and output.
