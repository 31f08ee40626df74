/** Bounded directory scans: a worklist with an entry budget against the recursive size of the tree. */
module DiskScan {
  import opened Bytes

  const U64_MAX: nat := U64_LIMIT - 1

  /** What a scan meets; `hidden` is what a failing call keeps it from seeing. */
  datatype Node =
    | File(size: nat)
    | Directory(listing: Listing)
    | Special                       // symbolic links, sockets and the like
    | Unreadable(hidden: nat)       // the entry, its type or its metadata cannot be read

  datatype Listing =
    | Entries(nodes: seq<Node>)
    | Absent                        // missing, or a link that is not followed
    | Refused(hidden: nat)

  datatype Reason = BudgetExhausted | ScanFailed

  // ----- the specification -----

  /** Bytes in regular files at or below a node. */
  function Size(n: Node): (s: nat)
    decreases n
  {
    match n
    case File(size) => size
    case Directory(listing) => ListingSize(listing)
    case Special => 0
    case Unreadable(hidden) => hidden
  }

  function ListingSize(l: Listing): (s: nat)
    decreases l
  {
    match l
    case Entries(nodes) => SizeFrom(nodes, 0)
    case Absent => 0
    case Refused(hidden) => hidden
  }

  function SizeFrom(nodes: seq<Node>, i: nat): (s: nat)
    requires i <= |nodes|
    decreases nodes, |nodes| - i
  {
    if i == |nodes| then 0 else Size(nodes[i]) + SizeFrom(nodes, i + 1)
  }

  /** Directory entries below a listing. */
  function EntryCount(l: Listing): (n: nat)
    decreases l
  {
    if l.Entries? then CountFrom(l.nodes, 0) else 0
  }

  function CountFrom(nodes: seq<Node>, i: nat): (n: nat)
    requires i <= |nodes|
    decreases nodes, |nodes| - i
  {
    if i == |nodes| then 0
    else 1 + Below(nodes[i]) + CountFrom(nodes, i + 1)
  }

  function Below(n: Node): (r: nat)
    decreases n
  {
    if n.Directory? then EntryCount(n.listing) else 0
  }

  /** Calls that fail below a node. */
  function Defects(n: Node): (d: nat)
    decreases n
  {
    match n
    case Directory(listing) => ListingDefects(listing)
    case Unreadable(_) => 1
    case _ => 0
  }

  function ListingDefects(l: Listing): (d: nat)
    decreases l
  {
    match l
    case Entries(nodes) => DefectsFrom(nodes, 0)
    case Absent => 0
    case Refused(_) => 1
  }

  function DefectsFrom(nodes: seq<Node>, i: nat): (d: nat)
    requires i <= |nodes|
    decreases nodes, |nodes| - i
  {
    if i == |nodes| then 0 else Defects(nodes[i]) + DefectsFrom(nodes, i + 1)
  }

  function Saturated(n: nat): (r: nat)
    ensures r <= U64_MAX && r <= n
  {
    Min(n, U64_MAX)
  }

  function SaturatingAdd(a: nat, b: nat): (r: nat) {
    Saturated(a + b)
  }

  // ----- the worklist -----

  function QueueSize(queue: seq<Listing>): (s: nat) {
    if queue == [] then 0 else QueueSize(queue[..|queue| - 1]) + ListingSize(queue[|queue| - 1])
  }

  function QueueCount(queue: seq<Listing>): (n: nat) {
    if queue == [] then 0 else QueueCount(queue[..|queue| - 1]) + EntryCount(queue[|queue| - 1])
  }

  function QueueDefects(queue: seq<Listing>): (n: nat) {
    if queue == [] then 0 else QueueDefects(queue[..|queue| - 1]) + ListingDefects(queue[|queue| - 1])
  }

  lemma QueuePush(queue: seq<Listing>, l: Listing, queue': seq<Listing>)
    requires queue' == queue + [l]
    ensures QueueSize(queue') == QueueSize(queue) + ListingSize(l)
    ensures QueueCount(queue') == QueueCount(queue) + EntryCount(l)
    ensures QueueDefects(queue') == QueueDefects(queue) + ListingDefects(l)
  {
    assert queue'[..|queue|] == queue;
  }

  // ----- the order of the scan -----

  /** The directories among these entries, in order. */
  function Subdirectories(nodes: seq<Node>): (r: seq<Listing>) {
    if nodes == [] then []
    else
      var k := |nodes| - 1;
      Subdirectories(nodes[..k]) + if nodes[k].Directory? then [nodes[k].listing] else []
  }

  /** All entries below a queue of directories, in the order of the scan: the last directory comes first. */
  function ScanOrder(queue: seq<Listing>): (r: seq<Node>)
    ensures |r| == QueueCount(queue)
    decreases QueueCount(queue), |queue|
  {
    if queue == [] then []
    else
      var k := |queue| - 1;
      match queue[k]
      case Entries(nodes) =>
        QueueSubdirectories(queue[..k], nodes, queue[..k] + Subdirectories(nodes));
        nodes + ScanOrder(queue[..k] + Subdirectories(nodes))
      case _ => ScanOrder(queue[..k])
  }

  /** One directory is taken from the queue. */
  lemma ScanOrderStep(queue: seq<Listing>, l: Listing, queue': seq<Listing>)
    requires queue == queue' + [l]
    ensures l.Entries? ==> ScanOrder(queue) == l.nodes + ScanOrder(queue' + Subdirectories(l.nodes))
    ensures !l.Entries? ==> ScanOrder(queue) == ScanOrder(queue')
  {
    assert queue[..|queue| - 1] == queue';
  }

  /** Queueing the directories of one listing accounts for all of it but its entries and its files. */
  lemma {:induction false} QueueSubdirectories(queue: seq<Listing>, nodes: seq<Node>, queue': seq<Listing>)
    requires queue' == queue + Subdirectories(nodes)
    ensures QueueCount(queue') + |nodes| == QueueCount(queue) + CountFrom(nodes, 0)
    ensures FileBytes(nodes) + QueueSize(queue') <= QueueSize(queue) + SizeFrom(nodes, 0)
    ensures QueueDefects(queue') <= QueueDefects(queue) + DefectsFrom(nodes, 0)
    ensures DefectsFrom(nodes, 0) == 0 ==> FileBytes(nodes) + QueueSize(queue') == QueueSize(queue) + SizeFrom(nodes, 0)
    decreases |nodes|
  {
    if nodes == [] {
      assert queue' == queue;
    } else {
      var k := |nodes| - 1;
      var sub := Subdirectories(nodes[..k]);
      QueueSubdirectories(queue, nodes[..k], queue + sub);
      LastEntry(nodes, 0);
      if nodes[k].Directory? {
        ConcatAssoc(queue, sub, [nodes[k].listing]);
        QueuePush(queue + sub, nodes[k].listing, queue');
      } else {
        assert queue' == queue + sub;
      }
    }
  }

  lemma {:induction false} LastEntry(nodes: seq<Node>, i: nat)
    requires i < |nodes|
    ensures CountFrom(nodes, i) == CountFrom(nodes[..|nodes| - 1], i) + 1 + Below(nodes[|nodes| - 1])
    ensures SizeFrom(nodes, i) == SizeFrom(nodes[..|nodes| - 1], i) + Size(nodes[|nodes| - 1])
    ensures DefectsFrom(nodes, i) == DefectsFrom(nodes[..|nodes| - 1], i) + Defects(nodes[|nodes| - 1])
    decreases |nodes| - i
  {
    hide Below, Size, Defects;
    if i < |nodes| - 1 {
      LastEntry(nodes, i + 1);
    }
  }

  /** Bytes in the regular files among these entries whose size can be read. */
  function FileBytes(nodes: seq<Node>): (s: nat) {
    if nodes == [] then 0
    else FileBytes(nodes[..|nodes| - 1]) + if nodes[|nodes| - 1].File? then nodes[|nodes| - 1].size else 0
  }

  lemma {:induction false} FileBytesConcat(a: seq<Node>, b: seq<Node>, whole: seq<Node>)
    requires whole == a + b
    ensures FileBytes(whole) == FileBytes(a) + FileBytes(b)
    decreases |b|
  {
    if b == [] {
      assert whole == a;
    } else {
      assert whole[..|whole| - 1] == a + b[..|b| - 1];
      FileBytesConcat(a, b[..|b| - 1], whole[..|whole| - 1]);
    }
  }

  lemma OneEntryMore(nodes: seq<Node>, i: nat)
    requires i < |nodes|
    ensures FileBytes(nodes[..i + 1]) == FileBytes(nodes[..i]) + if nodes[i].File? then nodes[i].size else 0
    ensures Subdirectories(nodes[..i + 1]) ==
      Subdirectories(nodes[..i]) + if nodes[i].Directory? then [nodes[i].listing] else []
  {
    assert nodes[..i + 1][..i] == nodes[..i];
  }

  lemma NoEntries()
    ensures FileBytes([]) == 0 && Subdirectories([]) == []
  {
  }

  /** The entries that a budget pays for. */
  function Paid<T>(s: seq<T>, budget: nat): (r: seq<T>)
    ensures |r| == Min(budget, |s|)
  {
    s[..Min(budget, |s|)]
  }

  lemma PaidConcat<T>(a: seq<T>, b: seq<T>, budget: nat)
    ensures Paid(a + b, budget) == Paid(a, budget) + Paid(b, budget - |Paid(a, budget)|)
  {
  }

  /** The first reason is kept. */
  function Note(partial: Option<Reason>, reason: Reason): (r: Option<Reason>)
    ensures r.Some? && (partial.Some? ==> r == partial)
  {
    if partial.Some? then partial else Some(reason)
  }

  method ConsumeEntry(budget: nat, partial: Option<Reason>) returns (ok: bool, budget': nat, partial': Option<Reason>)
    ensures ok <==> budget > 0
    ensures ok ==> budget' == budget - 1 && partial' == partial
    ensures !ok ==> budget' == 0 && partial' == Note(partial, BudgetExhausted)
  {
    if budget == 0 {
      return false, 0, Note(partial, BudgetExhausted);
    }
    return true, budget - 1, partial;
  }

  /** The reason given is one there is: some call failed, or the entries outnumber the budget. */
  predicate Blamed(partial: Option<Reason>, defects: nat, entries: nat, budget: nat) {
    && (partial == Some(ScanFailed) ==> defects > 0)
    && (partial == Some(BudgetExhausted) ==> entries > budget)
  }

  /** No result can be too large, and an unflagged one is exact. */
  ghost predicate SizeResult(total: nat, actual: nat, partial: Option<Reason>) {
    total <= Saturated(actual) && (partial.None? ==> total == Saturated(actual))
  }

  /**
    * One directory: exactly the entries that the budget pays for are counted or queued; of the
    * calls, `defects` fail and leave a reason. Stops at the first entry over the budget.
    */
  method ScanDirectory(nodes: seq<Node>, queue: seq<Listing>, total: nat, budget: nat, partial: Option<Reason>,
                       ghost sum: nat)
    returns (done: bool, queue': seq<Listing>, total': nat, budget': nat, partial': Option<Reason>, ghost defects: nat)
    requires total == Saturated(sum)
    ensures (done <==> |nodes| <= budget) && budget' == budget - |Paid(nodes, budget)|
    ensures total' == Saturated(sum + FileBytes(Paid(nodes, budget)))
    ensures queue' == queue + Subdirectories(Paid(nodes, budget))
    ensures !done ==> partial'.Some?
    ensures done ==> defects + QueueDefects(queue') == QueueDefects(queue) + DefectsFrom(nodes, 0)
    ensures !done ==> defects <= QueueDefects(queue) + DefectsFrom(nodes, 0)
    ensures partial.Some? ==> partial' == partial
    ensures partial.None? ==> partial' == if defects > 0 then Some(ScanFailed)
                                          else if done then None else Some(BudgetExhausted)
  {
    hide Saturated, QueueDefects, FileBytes, Subdirectories;
    NoEntries();
    done, queue', total', budget', partial', defects := false, queue, total, budget, partial, 0;
    var i := 0;
    while i < |nodes|
      invariant 0 <= i <= |nodes| && budget - budget' == i
      invariant total' == Saturated(sum + FileBytes(nodes[..i])) && queue' == queue + Subdirectories(nodes[..i])
      invariant defects + QueueDefects(queue') + DefectsFrom(nodes, i) == QueueDefects(queue) + DefectsFrom(nodes, 0)
      invariant partial.Some? ==> partial' == partial
      invariant partial.None? ==> partial' == if defects > 0 then Some(ScanFailed) else None
    {
      var ok;
      ok, budget', partial' := ConsumeEntry(budget', partial');
      if !ok {
        return;
      }
      var node := nodes[i];
      OneEntryMore(nodes, i);
      match node {
        case Unreadable(_) =>
          partial' := Note(partial', ScanFailed);
          defects := defects + 1;
        case Directory(listing) =>
          QueuePush(queue', listing, queue' + [listing]);
          queue' := queue' + [listing];
        case File(size) =>
          SaturatedSum(sum + FileBytes(nodes[..i]), size);
          total' := SaturatingAdd(total', size);
        case Special =>
      }
      i := i + 1;
    }
    done := true;
  }

  lemma SaturatedSum(a: nat, b: nat)
    ensures SaturatingAdd(Saturated(a), b) == Saturated(a + b)
  {
  }

  /**
    * The files among the entries that the budget pays for, in the order of the scan: a lower bound of
    * the recursive sum; it is unflagged exactly when nothing failed and the budget
    * covers the tree, and then it is exact and every entry was paid for.
    */
  method DirSize(root: Listing, budget: nat, partial: Option<Reason>)
    returns (total: nat, budget': nat, partial': Option<Reason>)
    ensures total == Saturated(FileBytes(Paid(ScanOrder([root]), budget)))
    ensures budget' == budget - |Paid(ScanOrder([root]), budget)|
    ensures SizeResult(total, ListingSize(root), partial')
    ensures budget' <= budget && (partial'.None? ==> budget - budget' == EntryCount(root))
    ensures partial'.None? <==> partial.None? && ListingDefects(root) == 0 && EntryCount(root) <= budget
    ensures partial.None? ==> Blamed(partial', ListingDefects(root), EntryCount(root), budget)
    ensures partial.Some? ==> partial' == partial
  {
    hide QueueSize, QueueCount, QueueDefects, Saturated, ScanOrder, FileBytes, Subdirectories, ListingSize, EntryCount;
    NoEntries();
    OneDirectory(root, budget);
    total, budget', partial' := 0, budget, partial;
    var queue := [root];
    ghost var taken: seq<Node>, defects: nat := [], 0;
    while queue != []
      invariant ScanOrder([root]) == taken + ScanOrder(queue) && |taken| == budget - budget'
      invariant total == Saturated(FileBytes(taken))
      invariant defects + QueueDefects(queue) == ListingDefects(root)
      invariant partial.Some? ==> partial' == partial
      invariant partial.None? ==> partial' == if defects > 0 then Some(ScanFailed) else None
      decreases QueueCount(queue), |queue|
    {
      var dir := queue[|queue| - 1];
      QueuePush(queue[..|queue| - 1], dir, queue);
      ScanOrderStep(queue, dir, queue[..|queue| - 1]);
      queue := queue[..|queue| - 1];
      match dir {
        case Refused(_) =>
          partial' := Note(partial', ScanFailed);
          defects := defects + 1;
        case Absent =>
        case Entries(nodes) =>
          var done;
          ghost var rest, left, failed := queue, budget', 0;
          done, queue, total, budget', partial', failed :=
            ScanDirectory(nodes, queue, total, budget', partial', FileBytes(taken));
          TakeEntries(taken, nodes, rest, budget, left);
          taken, defects := taken + Paid(nodes, left), defects + failed;
          if !done {
            return;
          }
      }
    }
    EmptyQueue();
    assert taken + [] == taken;
  }

  /** The scan order of one directory. */
  lemma OneQueue(l: Listing)
    ensures |ScanOrder([l])| == EntryCount(l) && FileBytes(ScanOrder([l])) <= ListingSize(l)
    ensures ListingDefects(l) == 0 ==> FileBytes(ScanOrder([l])) == ListingSize(l)
  {
    hide ScanOrder, FileBytes;
    EmptyQueue();
    QueuePush([], l, [l]);
    OrderKeepsSize([l]);
  }

  /** One directory to begin with: what its scan order says about its size. */
  lemma OneDirectory(root: Listing, budget: nat)
    ensures QueueDefects([root]) == ListingDefects(root) && |ScanOrder([root])| == EntryCount(root)
    ensures ScanOrder([]) == []
    ensures Saturated(FileBytes(Paid(ScanOrder([root]), budget))) <= Saturated(ListingSize(root))
    ensures ListingDefects(root) == 0 && EntryCount(root) <= budget ==>
      FileBytes(Paid(ScanOrder([root]), budget)) == ListingSize(root)
    ensures Saturated(0) == 0
  {
    hide ScanOrder, FileBytes, Paid;
    EmptyQueue();
    QueuePush([], root, [root]);
    OneQueue(root);
    PaidBytes(ScanOrder([root]), budget);
  }

  lemma PaidBytes(nodes: seq<Node>, budget: nat)
    ensures FileBytes(Paid(nodes, budget)) <= FileBytes(nodes)
    ensures |nodes| <= budget ==> Paid(nodes, budget) == nodes
  {
    var k := |Paid(nodes, budget)|;
    assert nodes[..k] + nodes[k..] == nodes;
    FileBytesConcat(nodes[..k], nodes[k..], nodes);
  }

  /** The files in scan order are those of the recursive sum, but for what failing calls hide. */
  lemma {:induction false} OrderKeepsSize(queue: seq<Listing>)
    ensures FileBytes(ScanOrder(queue)) <= QueueSize(queue)
    ensures QueueDefects(queue) == 0 ==> FileBytes(ScanOrder(queue)) == QueueSize(queue)
    decreases QueueCount(queue), |queue|
  {
    if queue != [] {
      var dir, rest := queue[|queue| - 1], queue[..|queue| - 1];
      QueuePush(rest, dir, queue);
      ScanOrderStep(queue, dir, rest);
      match dir {
        case Entries(nodes) =>
          var queue' := rest + Subdirectories(nodes);
          QueueSubdirectories(rest, nodes, queue');
          OrderKeepsSize(queue');
          FileBytesConcat(nodes, ScanOrder(queue'), ScanOrder(queue));
        case _ => OrderKeepsSize(rest);
      }
    }
  }

  /** What the budget pays for in one directory more; if that is all of it, the rest comes later. */
  lemma TakeEntries(taken: seq<Node>, nodes: seq<Node>, rest: seq<Listing>, budget: nat, left: nat)
    requires |taken| + left == budget
    ensures var paid, later := Paid(nodes, left), ScanOrder(rest + Subdirectories(nodes));
      && FileBytes(taken + paid) == FileBytes(taken) + FileBytes(paid)
      && (|nodes| <= left ==> paid == nodes && taken + (nodes + later) == (taken + paid) + later)
      && (|nodes| > left ==> Paid(taken + (nodes + later), budget) == taken + paid && |taken + paid| == budget)
  {
    hide FileBytes, ScanOrder, Subdirectories;
    FileBytesConcat(taken, Paid(nodes, left), taken + Paid(nodes, left));
  }

  lemma EmptyQueue()
    ensures QueueSize([]) == 0 && QueueCount([]) == 0 && QueueDefects([]) == 0
  {
  }

  // ----- the whole state directory -----

  datatype SessionEntry =
    | Session(journal: Listing, files: Listing)
    | NotADirectory
    | UnreadableEntry(journalHidden: nat, filesHidden: nat)

  datatype Sessions =
    | SessionEntries(entries: seq<SessionEntry>)
    | NoSessions
    | SessionsRefused(journalHidden: nat, filesHidden: nat)

  datatype FileStat = Regular(size: nat) | NotRegular | Missing | StatFails(hidden: nat)

  datatype StateTree = StateTree(sessions: Sessions, db: FileStat, wal: FileStat, shm: FileStat, logs: Listing)

  datatype Breakdown = Breakdown(journal: nat, uploads: nat, sqlite: nat, logs: nat)

  function EntryJournal(e: SessionEntry): (s: nat) {
    match e
    case Session(journal, _) => ListingSize(journal)
    case NotADirectory => 0
    case UnreadableEntry(hidden, _) => hidden
  }

  function EntryUploads(e: SessionEntry): (s: nat) {
    match e
    case Session(_, files) => ListingSize(files)
    case NotADirectory => 0
    case UnreadableEntry(_, hidden) => hidden
  }

  /** Entries below a session directory. */
  function EntryCost(e: SessionEntry): (n: nat) {
    if e.Session? then EntryCount(e.journal) + EntryCount(e.files) else 0
  }

  function EntryDefects(e: SessionEntry): (n: nat) {
    match e
    case Session(journal, files) => ListingDefects(journal) + ListingDefects(files)
    case NotADirectory => 0
    case UnreadableEntry(_, _) => 1
  }

  function JournalFrom(entries: seq<SessionEntry>, i: nat): (s: nat)
    requires i <= |entries|
    decreases |entries| - i
  {
    if i == |entries| then 0 else EntryJournal(entries[i]) + JournalFrom(entries, i + 1)
  }

  function UploadsFrom(entries: seq<SessionEntry>, i: nat): (s: nat)
    requires i <= |entries|
    decreases |entries| - i
  {
    if i == |entries| then 0 else EntryUploads(entries[i]) + UploadsFrom(entries, i + 1)
  }

  function SessionCountFrom(entries: seq<SessionEntry>, i: nat): (n: nat)
    requires i <= |entries|
    decreases |entries| - i
  {
    if i == |entries| then 0 else 1 + EntryCost(entries[i]) + SessionCountFrom(entries, i + 1)
  }

  /** Calls that fail while the session directories are scanned. */
  function SessionDefectsFrom(entries: seq<SessionEntry>, i: nat): (n: nat)
    requires i <= |entries|
    decreases |entries| - i
  {
    if i == |entries| then 0 else EntryDefects(entries[i]) + SessionDefectsFrom(entries, i + 1)
  }

  function JournalSize(s: Sessions): (n: nat) {
    match s
    case SessionEntries(entries) => JournalFrom(entries, 0)
    case NoSessions => 0
    case SessionsRefused(hidden, _) => hidden
  }

  function UploadsSize(s: Sessions): (n: nat) {
    match s
    case SessionEntries(entries) => UploadsFrom(entries, 0)
    case NoSessions => 0
    case SessionsRefused(_, hidden) => hidden
  }

  function SessionCount(s: Sessions): (n: nat) {
    if s.SessionEntries? then SessionCountFrom(s.entries, 0) else 0
  }

  function SessionDefects(s: Sessions): (n: nat) {
    match s
    case SessionEntries(entries) => SessionDefectsFrom(entries, 0)
    case NoSessions => 0
    case SessionsRefused(_, _) => 1
  }

  function StatSize(f: FileStat): (n: nat) {
    match f
    case Regular(size) => size
    case StatFails(hidden) => hidden
    case _ => 0
  }

  // ----- the order of the whole scan -----

  datatype Kind = Journal | Uploads | Logs | Other

  /** An entry that is paid for, with the bytes that it adds to a category. */
  datatype Item = Item(kind: Kind, bytes: nat)

  function Tagged(kind: Kind, nodes: seq<Node>): (r: seq<Item>)
    ensures |r| == |nodes|
  {
    seq(|nodes|, i requires 0 <= i < |nodes| => Item(kind, if nodes[i].File? then nodes[i].size else 0))
  }

  function SessionItems(e: SessionEntry): (r: seq<Item>) {
    if e.Session? then Tagged(Journal, ScanOrder([e.journal])) + Tagged(Uploads, ScanOrder([e.files])) else []
  }

  /** Every session entry, and after it what is below its two directories. */
  function ItemsOf(entries: seq<SessionEntry>): (r: seq<Item>) {
    if entries == [] then []
    else
      var k := |entries| - 1;
      ItemsOf(entries[..k]) + ([Item(Other, 0)] + SessionItems(entries[k]))
  }

  /** All entries below the sessions directory in the order of the scan. */
  function SessionsItems(s: Sessions): (r: seq<Item>) {
    if s.SessionEntries? then ItemsOf(s.entries) else []
  }

  function Total(items: seq<Item>, kind: Kind): (s: nat) {
    if items == [] then 0
    else
      var k := |items| - 1;
      Total(items[..k], kind) + if items[k].kind == kind then items[k].bytes else 0
  }

  lemma {:induction false} TotalConcat(a: seq<Item>, b: seq<Item>, kind: Kind)
    ensures Total(a + b, kind) == Total(a, kind) + Total(b, kind)
    decreases |b|
  {
    if b == [] {
      assert a + b == a;
    } else {
      assert (a + b)[..|a + b| - 1] == a + b[..|b| - 1];
      TotalConcat(a, b[..|b| - 1], kind);
    }
  }

  lemma {:induction false} TaggedTotal(kind: Kind, nodes: seq<Node>, k: Kind)
    ensures Total(Tagged(kind, nodes), k) == if k == kind then FileBytes(nodes) else 0
    decreases |nodes|
  {
    if nodes != [] {
      var front := nodes[..|nodes| - 1];
      TaggedTotal(kind, front, k);
      assert Tagged(kind, nodes)[..|nodes| - 1] == Tagged(kind, front);
    }
  }

  lemma PaidTagged(kind: Kind, nodes: seq<Node>, budget: nat, k: Kind)
    ensures Total(Paid(Tagged(kind, nodes), budget), k) == if k == kind then FileBytes(Paid(nodes, budget)) else 0
  {
    assert Paid(Tagged(kind, nodes), budget) == Tagged(kind, Paid(nodes, budget));
    TaggedTotal(kind, Paid(nodes, budget), k);
  }

  /** More entries after the ones scanned so far: the budget that is left pays for them. */
  lemma PaidMore(a: seq<Item>, b: seq<Item>, budget: nat, kind: Kind)
    ensures |Paid(a + b, budget)| == |Paid(a, budget)| + |Paid(b, budget - |Paid(a, budget)|)|
    ensures Total(Paid(a + b, budget), kind) ==
      Total(Paid(a, budget), kind) + Total(Paid(b, budget - |Paid(a, budget)|), kind)
  {
    PaidConcat(a, b, budget);
    TotalConcat(Paid(a, budget), Paid(b, budget - |Paid(a, budget)|), kind);
  }

  lemma PaidTotal(items: seq<Item>, budget: nat, kind: Kind)
    ensures Total(Paid(items, budget), kind) <= Total(items, kind)
    ensures |items| <= budget ==> Paid(items, budget) == items
  {
    var k := |Paid(items, budget)|;
    assert items[..k] + items[k..] == items;
    TotalConcat(items[..k], items[k..], kind);
  }

  /** A session's entries make up its journal and uploads, but for what failing calls hide. */
  lemma SessionBounds(e: SessionEntry)
    ensures |SessionItems(e)| == EntryCost(e)
    ensures Total(SessionItems(e), Journal) <= EntryJournal(e) && Total(SessionItems(e), Uploads) <= EntryUploads(e)
    ensures EntryDefects(e) == 0 ==>
      Total(SessionItems(e), Journal) == EntryJournal(e) && Total(SessionItems(e), Uploads) == EntryUploads(e)
  {
    hide ScanOrder, FileBytes, Tagged, ListingSize, EntryCount, ListingDefects;
    if e.Session? {
      var journal, files := ScanOrder([e.journal]), ScanOrder([e.files]);
      OneQueue(e.journal);
      OneQueue(e.files);
      var a, b := Tagged(Journal, journal), Tagged(Uploads, files);
      TotalConcat(a, b, Journal);
      TotalConcat(a, b, Uploads);
      TaggedTotal(Journal, journal, Journal);
      TaggedTotal(Journal, journal, Uploads);
      TaggedTotal(Uploads, files, Journal);
      TaggedTotal(Uploads, files, Uploads);
    }
  }

  /** The same of all sessions. */
  lemma {:induction false} ItemsBounds(entries: seq<SessionEntry>)
    ensures |ItemsOf(entries)| == SessionCountFrom(entries, 0)
    ensures Total(ItemsOf(entries), Journal) <= JournalFrom(entries, 0)
    ensures Total(ItemsOf(entries), Uploads) <= UploadsFrom(entries, 0)
    ensures SessionDefectsFrom(entries, 0) == 0 ==> Total(ItemsOf(entries), Journal) == JournalFrom(entries, 0)
    ensures SessionDefectsFrom(entries, 0) == 0 ==> Total(ItemsOf(entries), Uploads) == UploadsFrom(entries, 0)
    decreases |entries|
  {
    hide SessionItems, EntryJournal, EntryUploads, EntryCost, EntryDefects;
    if entries != [] {
      var k := |entries| - 1;
      ItemsBounds(entries[..k]);
      LastSession(entries, 0);
      SessionBounds(entries[k]);
      OneSessionMore(entries, k, Journal);
      OneSessionMore(entries, k, Uploads);
      assert entries[..k + 1] == entries;
    }
  }

  lemma OneSessionMore(entries: seq<SessionEntry>, i: nat, kind: Kind)
    requires i < |entries| && kind != Other
    ensures ItemsOf(entries[..i + 1]) == ItemsOf(entries[..i]) + ([Item(Other, 0)] + SessionItems(entries[i]))
    ensures Total(ItemsOf(entries[..i + 1]), kind) ==
      Total(ItemsOf(entries[..i]), kind) + Total(SessionItems(entries[i]), kind)
  {
    hide SessionItems;
    var marker := [Item(Other, 0)];
    assert entries[..i + 1][..i] == entries[..i];
    assert marker[..0] == [];
    TotalConcat(ItemsOf(entries[..i]), marker + SessionItems(entries[i]), kind);
    TotalConcat(marker, SessionItems(entries[i]), kind);
  }

  lemma {:induction false} LastSession(entries: seq<SessionEntry>, i: nat)
    requires i < |entries|
    ensures var front, last := entries[..|entries| - 1], entries[|entries| - 1];
      && SessionCountFrom(entries, i) == SessionCountFrom(front, i) + 1 + EntryCost(last)
      && JournalFrom(entries, i) == JournalFrom(front, i) + EntryJournal(last)
      && UploadsFrom(entries, i) == UploadsFrom(front, i) + EntryUploads(last)
      && SessionDefectsFrom(entries, i) == SessionDefectsFrom(front, i) + EntryDefects(last)
    decreases |entries| - i
  {
    hide EntryCost, EntryJournal, EntryUploads, EntryDefects;
    if i < |entries| - 1 {
      LastSession(entries, i + 1);
    }
  }

  /** The size that can be read. */
  function RegularSize(f: FileStat): (n: nat) {
    if f.Regular? then f.size else 0
  }

  method FileSize(f: FileStat, partial: Option<Reason>) returns (size: nat, partial': Option<Reason>)
    requires f.Regular? ==> f.size <= U64_MAX
    ensures size == RegularSize(f) && SizeResult(size, StatSize(f), partial')
    ensures partial'.None? <==> partial.None? && !f.StatFails?
    ensures partial.None? && f.StatFails? ==> partial' == Some(ScanFailed)
    ensures partial.Some? ==> partial' == partial
  {
    partial' := partial;
    match f {
      case Regular(n) => size := n;
      case NotRegular => size := 0;
      case Missing => size := 0;
      case StatFails(_) =>
        size := 0;
        partial' := Note(partial, ScanFailed);
    }
  }

  /** One entry of the sessions directory, on top of what was counted before. */
  method ScanSession(entry: SessionEntry, journal: nat, uploads: nat, budget: nat, partial: Option<Reason>,
                     ghost j: nat, ghost u: nat)
    returns (journal': nat, uploads': nat, budget': nat, partial': Option<Reason>)
    requires journal == Saturated(j) && uploads == Saturated(u)
    ensures journal' == Saturated(j + Total(Paid(SessionItems(entry), budget), Journal))
    ensures uploads' == Saturated(u + Total(Paid(SessionItems(entry), budget), Uploads))
    ensures budget' == budget - |Paid(SessionItems(entry), budget)|
    ensures partial'.None? <==> partial.None? && EntryDefects(entry) == 0 && EntryCost(entry) <= budget
    ensures partial.None? ==> Blamed(partial', EntryDefects(entry), EntryCost(entry), budget)
    ensures partial.Some? ==> partial' == partial
  {
    hide ListingSize, EntryCount, ListingDefects, ScanOrder, FileBytes, Tagged, Total, Paid, Saturated;
    NoItems(budget);
    SessionBounds(entry);
    journal', uploads', budget', partial' := journal, uploads, budget, partial;
    match entry {
      case UnreadableEntry(_, _) =>
        partial' := Note(partial', ScanFailed);
      case NotADirectory =>
      case Session(journalDir, filesDir) =>
        SessionTotal(entry, budget);
        var size;
        size, budget', partial' := DirSize(journalDir, budget', partial');
        SaturatedTwice(j, FileBytes(Paid(ScanOrder([journalDir]), budget)));
        journal' := SaturatingAdd(journal', size);
        SaturatedTwice(u, FileBytes(Paid(ScanOrder([filesDir]), budget')));
        size, budget', partial' := DirSize(filesDir, budget', partial');
        uploads' := SaturatingAdd(uploads', size);
    }
  }

  lemma NoItems(budget: nat)
    ensures Paid<Item>([], budget) == [] && forall k :: Total([], k) == 0
  {
  }

  lemma SaturatedTwice(a: nat, b: nat)
    ensures SaturatingAdd(Saturated(a), Saturated(b)) == Saturated(a + b)
  {
  }

  /** What a session adds: the budget pays for its journal first. */
  lemma SessionTotal(e: SessionEntry, budget: nat)
    requires e.Session?
    ensures var paid, journal, files := Paid(SessionItems(e), budget), ScanOrder([e.journal]), ScanOrder([e.files]);
      var left := budget - |Paid(journal, budget)|;
      && |paid| == |Paid(journal, budget)| + |Paid(files, left)|
      && Total(paid, Journal) == FileBytes(Paid(journal, budget))
      && Total(paid, Uploads) == FileBytes(Paid(files, left))
  {
    hide ScanOrder, FileBytes, Tagged, Total, Paid;
    var a, b := Tagged(Journal, ScanOrder([e.journal])), Tagged(Uploads, ScanOrder([e.files]));
    var left := budget - |Paid(a, budget)|;
    PaidMore(a, b, budget, Journal);
    PaidMore(a, b, budget, Uploads);
    PaidTagged(Journal, ScanOrder([e.journal]), budget, Journal);
    PaidTagged(Journal, ScanOrder([e.journal]), budget, Uploads);
    PaidTagged(Uploads, ScanOrder([e.files]), left, Journal);
    PaidTagged(Uploads, ScanOrder([e.files]), left, Uploads);
  }

  /**
    * The session directories: exactly the entries that the one budget pays for are counted, in the
    * order of the scan, and the scan stops at the first entry over it.
    */
  method ScanSessions(sessions: Sessions, budget: nat)
    returns (journal: nat, uploads: nat, budget': nat, partial: Option<Reason>)
    ensures journal == Saturated(Total(Paid(SessionsItems(sessions), budget), Journal))
    ensures uploads == Saturated(Total(Paid(SessionsItems(sessions), budget), Uploads))
    ensures budget' == budget - |Paid(SessionsItems(sessions), budget)|
    ensures SizeResult(journal, JournalSize(sessions), partial)
    ensures SizeResult(uploads, UploadsSize(sessions), partial)
    ensures budget' <= budget && (partial.None? ==> budget - budget' == SessionCount(sessions))
    ensures partial.None? <==> SessionDefects(sessions) == 0 && SessionCount(sessions) <= budget
    ensures Blamed(partial, SessionDefects(sessions), SessionCount(sessions), budget)
  {
    hide EntryJournal, EntryUploads, EntryCost, EntryDefects, ItemsOf, SessionItems, Total, Paid, Saturated,
         JournalFrom, UploadsFrom, SessionCountFrom;
    NoItems(budget);
    SessionsBounds(sessions, budget);
    journal, uploads, budget', partial := 0, 0, budget, None;
    match sessions {
      case SessionsRefused(_, _) => partial := Note(partial, ScanFailed);
      case NoSessions =>
      case SessionEntries(entries) =>
        var i := 0;
        ghost var taken, d: nat := ItemsOf(entries[..0]), 0;  // the items so far, and the failing calls
        NoSessionsYet(entries);
        while i < |entries|
          invariant 0 <= i <= |entries| && taken == ItemsOf(entries[..i])
          invariant budget' == budget - |Paid(taken, budget)|
          invariant journal == Saturated(Total(Paid(taken, budget), Journal))
          invariant uploads == Saturated(Total(Paid(taken, budget), Uploads))
          invariant d + SessionDefectsFrom(entries, i) == SessionDefectsFrom(entries, 0)
          invariant partial.None? <==> d == 0 && |taken| <= budget
          invariant Blamed(partial, d, |taken|, budget)
        {
          ItemsGrow(entries, i, budget);
          var ok;
          ok, budget', partial := ConsumeEntry(budget', partial);
          if !ok {
            break;
          }
          journal, uploads, budget', partial :=
            ScanSession(entries[i], journal, uploads, budget', partial,
                        Total(Paid(taken, budget), Journal), Total(Paid(taken, budget), Uploads));
          d := d + EntryDefects(entries[i]);
          SessionBounds(entries[i]);
          i := i + 1;
          taken := ItemsOf(entries[..i]);
        }
        ItemsEnd(entries, i, budget);
    }
  }

  lemma NoSessionsYet(entries: seq<SessionEntry>)
    ensures ItemsOf(entries[..0]) == []
  {
  }

  /** One session entry more, for which there is still a budget. */
  lemma ItemsGrow(entries: seq<SessionEntry>, i: nat, budget: nat)
    requires i < |entries|
    ensures var taken, more, next := ItemsOf(entries[..i]), SessionItems(entries[i]), ItemsOf(entries[..i + 1]);
      var left := budget - |Paid(taken, budget)|;
      && |next| == |taken| + 1 + |more|
      && (left > 0 ==> |Paid(next, budget)| == |Paid(taken, budget)| + 1 + |Paid(more, left - 1)|)
      && (left > 0 ==>
            Total(Paid(next, budget), Journal) ==
              Total(Paid(taken, budget), Journal) + Total(Paid(more, left - 1), Journal))
      && (left > 0 ==>
            Total(Paid(next, budget), Uploads) ==
              Total(Paid(taken, budget), Uploads) + Total(Paid(more, left - 1), Uploads))
  {
    hide ItemsOf, SessionItems, Total;
    OneSessionMore(entries, i, Journal);
    AnotherItems(ItemsOf(entries[..i]), SessionItems(entries[i]), budget, Journal);
    AnotherItems(ItemsOf(entries[..i]), SessionItems(entries[i]), budget, Uploads);
  }

  lemma AnotherItems(taken: seq<Item>, more: seq<Item>, budget: nat, kind: Kind)
    requires kind != Other
    ensures var next, left := taken + ([Item(Other, 0)] + more), budget - |Paid(taken, budget)|;
      left > 0 ==>
        && |Paid(next, budget)| == |Paid(taken, budget)| + 1 + |Paid(more, left - 1)|
        && Total(Paid(next, budget), kind) == Total(Paid(taken, budget), kind) + Total(Paid(more, left - 1), kind)
  {
    var left := budget - |Paid(taken, budget)|;
    var marker := [Item(Other, 0)];
    PaidMore(taken, marker + more, budget, kind);
    if left > 0 {
      PaidMore(marker, more, left, kind);
      assert Paid(marker, left) == marker && marker[..0] == [];
      assert Total(marker, kind) == 0;
    }
  }

  /** Where the scan of the sessions ends, nothing more is paid for. */
  lemma ItemsEnd(entries: seq<SessionEntry>, i: nat, budget: nat)
    requires i <= |entries| && (i == |entries| || |Paid(ItemsOf(entries[..i]), budget)| == budget)
    ensures Paid(ItemsOf(entries), budget) == Paid(ItemsOf(entries[..i]), budget)
    ensures |ItemsOf(entries)| >= |ItemsOf(entries[..i])| + |entries| - i
    ensures |ItemsOf(entries)| == SessionCountFrom(entries, 0)
    ensures i == |entries| ==> |ItemsOf(entries)| == |ItemsOf(entries[..i])|
  {
    var rest := LaterItems(entries, i);
    ItemsBounds(entries);
    assert entries[..|entries|] == entries;
  }

  lemma {:induction false} LaterItems(entries: seq<SessionEntry>, i: nat) returns (rest: seq<Item>)
    requires i <= |entries|
    ensures ItemsOf(entries) == ItemsOf(entries[..i]) + rest && |rest| >= |entries| - i
    decreases |entries|
  {
    rest := [];
    if i == |entries| {
      assert entries[..i] == entries;
    } else {
      var k := |entries| - 1;
      var more := [Item(Other, 0)] + SessionItems(entries[k]);
      rest := LaterItems(entries[..k], i);
      assert entries[..k][..i] == entries[..i];
      ConcatAssoc(ItemsOf(entries[..i]), rest, more);
      rest := rest + more;
    }
  }

  /** What the sizes of the sessions have to do with the entries that are paid for. */
  lemma SessionsBounds(sessions: Sessions, budget: nat)
    ensures var paid := Paid(SessionsItems(sessions), budget);
      && |SessionsItems(sessions)| == SessionCount(sessions)
      && Saturated(Total(paid, Journal)) <= Saturated(JournalSize(sessions))
      && Saturated(Total(paid, Uploads)) <= Saturated(UploadsSize(sessions))
      && (SessionDefects(sessions) == 0 && SessionCount(sessions) <= budget ==>
            Total(paid, Journal) == JournalSize(sessions) && Total(paid, Uploads) == UploadsSize(sessions))
  {
    hide Total, Paid, ItemsOf;
    NoItems(budget);
    if sessions.SessionEntries? {
      ItemsBounds(sessions.entries);
      PaidTotal(ItemsOf(sessions.entries), budget, Journal);
      PaidTotal(ItemsOf(sessions.entries), budget, Uploads);
    }
  }

  /** All entries that the breakdown may come to, in its order. */
  function TreeItems(tree: StateTree): (r: seq<Item>) {
    SessionsItems(tree.sessions) + Tagged(Logs, ScanOrder([tree.logs]))
  }

  /** What the breakdown adds: the budget pays for the sessions first. */
  lemma TreeTotal(tree: StateTree, budget: nat)
    ensures var paid, sessions := Paid(TreeItems(tree), budget), Paid(SessionsItems(tree.sessions), budget);
      var logs := Paid(ScanOrder([tree.logs]), budget - |sessions|);
      && |paid| == |sessions| + |logs|
      && Total(paid, Journal) == Total(sessions, Journal) && Total(paid, Uploads) == Total(sessions, Uploads)
      && Total(paid, Logs) == FileBytes(logs)
  {
    hide ScanOrder, FileBytes, Tagged, Total, Paid, SessionsItems;
    var a, nodes := SessionsItems(tree.sessions), ScanOrder([tree.logs]);
    var b, left := Tagged(Logs, nodes), budget - |Paid(a, budget)|;
    NoLogs(tree.sessions, budget);
    PaidMore(a, b, budget, Journal);
    PaidMore(a, b, budget, Uploads);
    PaidMore(a, b, budget, Logs);
    PaidTagged(Logs, nodes, left, Journal);
    PaidTagged(Logs, nodes, left, Uploads);
    PaidTagged(Logs, nodes, left, Logs);
  }

  lemma NoLogs(sessions: Sessions, budget: nat)
    ensures Total(Paid(SessionsItems(sessions), budget), Logs) == 0
  {
    hide Total, Paid, ItemsOf;
    NoItems(budget);
    if sessions.SessionEntries? {
      ItemsAreNoLogs(sessions.entries);
      PaidTotal(ItemsOf(sessions.entries), budget, Logs);
    }
  }

  lemma {:induction false} ItemsAreNoLogs(entries: seq<SessionEntry>)
    ensures Total(ItemsOf(entries), Logs) == 0
    decreases |entries|
  {
    if entries != [] {
      var k := |entries| - 1;
      ItemsAreNoLogs(entries[..k]);
      OneSessionMore(entries, k, Logs);
      assert entries[..k + 1] == entries;
      if entries[k].Session? {
        var journal, files := ScanOrder([entries[k].journal]), ScanOrder([entries[k].files]);
        TotalConcat(Tagged(Journal, journal), Tagged(Uploads, files), Logs);
        TaggedTotal(Journal, journal, Logs);
        TaggedTotal(Uploads, files, Logs);
      }
    }
  }

  /**
    * The breakdown of the state directory: the figures count exactly the entries that the budget pays
    * for, whatever cannot be read on the way. Every figure is a lower bound, and without a partial
    * reason every figure is exact and the budget spent is the number of entries. A reason is given
    * exactly when some call failed or the entries outnumber the budget, and it is one of the two.
    */
  method ScanBreakdown(tree: StateTree, budget: nat)
    returns (b: Breakdown, budget': nat, partial: Option<Reason>)
    requires forall f <- [tree.db, tree.wal, tree.shm] :: f.Regular? ==> f.size <= U64_MAX
    // partial or not, the figures count exactly the entries that the budget pays for
    ensures var paid := Paid(TreeItems(tree), budget);
      && b.journal == Saturated(Total(paid, Journal)) && b.uploads == Saturated(Total(paid, Uploads))
      && b.logs == Saturated(Total(paid, Logs)) && budget' == budget - |paid|
    ensures b.sqlite == Saturated(RegularSize(tree.db) + RegularSize(tree.wal) + RegularSize(tree.shm))
    // what that has to do with what there is
    ensures SizeResult(b.journal, JournalSize(tree.sessions), partial)
    ensures SizeResult(b.uploads, UploadsSize(tree.sessions), partial)
    ensures SizeResult(b.sqlite, StatSize(tree.db) + StatSize(tree.wal) + StatSize(tree.shm), partial)
    ensures SizeResult(b.logs, ListingSize(tree.logs), partial)
    ensures budget' <= budget
    ensures partial.None? ==> budget - budget' == SessionCount(tree.sessions) + EntryCount(tree.logs)
    ensures partial.None? <==>
      && SessionDefects(tree.sessions) == 0 && ListingDefects(tree.logs) == 0
      && !tree.db.StatFails? && !tree.wal.StatFails? && !tree.shm.StatFails?
      && SessionCount(tree.sessions) + EntryCount(tree.logs) <= budget
    ensures partial == Some(BudgetExhausted) ==> SessionCount(tree.sessions) + EntryCount(tree.logs) > budget
    ensures partial == Some(ScanFailed) ==>
      || SessionDefects(tree.sessions) > 0 || ListingDefects(tree.logs) > 0
      || tree.db.StatFails? || tree.wal.StatFails? || tree.shm.StatFails?
  {
    hide ScanOrder, FileBytes, Tagged, Total, Paid, SessionsItems, TreeItems, EntryCount, ListingSize, ListingDefects,
         SessionDefects, SessionCount, JournalSize, UploadsSize;
    TreeTotal(tree, budget);
    var journal, uploads, logs;
    journal, uploads, budget', partial := ScanSessions(tree.sessions, budget);
    assert tree.db in [tree.db, tree.wal, tree.shm] && tree.wal in [tree.db, tree.wal, tree.shm]
           && tree.shm in [tree.db, tree.wal, tree.shm];
    var db, wal, shm;
    db, partial := FileSize(tree.db, partial);
    wal, partial := FileSize(tree.wal, partial);
    shm, partial := FileSize(tree.shm, partial);
    var sqlite := SaturatingAdd(SaturatingAdd(db, wal), shm);
    logs, budget', partial := DirSize(tree.logs, budget', partial);
    b := Breakdown(journal, uploads, sqlite, logs);
  }
}
