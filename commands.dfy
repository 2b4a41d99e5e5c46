/**
 * The command layer of the editor's back end (src-tauri/src/commands.rs), as far as it has
 * logic of its own: the ".." check of path validation, the directory listing with its filter,
 * depth limit and order, the one-shot language-server request over a TCP connection, and the
 * shared application state with its reuse-or-respawn rule for the terminal session.
 * A directory tree is given as data (`Listing`); sockets and the terminal are modelled by the
 * modules they come from.
 */
module Commands {
  import opened Wrappers
  import opened Text
  import opened Utf8
  import opened PortUtils
  import opened LspFraming
  import opened UcmPrompt
  import opened UcmPty

  // ---------------------------------------------------------------------------------------
  // Path validation

  const TraversalError: string := "Path traversal not allowed: "

  /**
   * The first check of `validate_path`: any path holding ".." anywhere is refused before the
   * filesystem is consulted. A path that passes goes on, unchanged, to canonicalisation.
   */
  function CheckTraversal(path: string): (r: Result<string, string>)
    ensures r.Err? <==> Contains(path, "..")
    ensures r.Ok? ==> r.value == path
  {
    if Contains(path, "..") then Err(TraversalError + path) else Ok(path)
  }

  /** Two dots side by side somewhere in `path`. */
  predicate HasDoubleDot(path: string) {
    exists i | 0 <= i < |path| - 1 :: path[i] == '.' && path[i + 1] == '.'
  }

  /**
   * A path is refused exactly when two dots stand side by side in it: a ".." component, but
   * also a name such as "notes..txt".
   */
  lemma TraversalIffDoubleDot(path: string)
    ensures CheckTraversal(path).Err? <==> HasDoubleDot(path)
  {
    if HasDoubleDot(path) {
      var i :| 0 <= i < |path| - 1 && path[i] == '.' && path[i + 1] == '.';
      assert OccursAt(path, "..", i);
    }
    if Contains(path, "..") {
      var i :| 0 <= i <= |path| - 2 && OccursAt(path, "..", i);
      assert path[i..i + 2][0] == path[i] && path[i..i + 2][1] == path[i + 1];
    }
  }

  /** A parent-directory step anywhere in a path makes it refused, with the path in the message. */
  lemma ParentStepRefused(before: string, after: string)
    ensures CheckTraversal(before + "/../" + after) == Err(TraversalError + before + "/../" + after)
  {
    var path := before + "/../" + after;
    var i := |before| + 1;
    assert path[i] == '.' && path[i + 1] == '.';
    assert HasDoubleDot(path);
    TraversalIffDoubleDot(path);
    assert TraversalError + path == TraversalError + before + "/../" + after;
  }

  // ---------------------------------------------------------------------------------------
  // Directory listing

  /** `MAX_DIRECTORY_DEPTH`. */
  const MaxDirectoryDepth: nat := 50

  /** What `read_dir` gives for a directory: its entries in the order read, or a failure. */
  datatype Listing = Entries(entries: seq<Entry>) | ReadDirFailed

  /**
   * One entry as the listing loop sees it: the iterator's own failure, a failure to read the
   * entry's metadata, or a name and path with the metadata's directory and symlink flags and,
   * for a directory, what listing it would give.
   */
  datatype Entry =
    | EntryFailed
    | MetadataFailed
    | Entry(name: string, path: string, isDir: bool, isSymlink: bool, contents: Listing)

  /** `FileNode`. */
  datatype FileNode = FileNode(name: string, path: string, isDirectory: bool, children: Option<seq<FileNode>>)

  /** Why a listing failed; the operating system's own error text is not modelled. */
  datatype ListError =
    | DepthExceeded(at: string)  // "Maximum directory depth (50) exceeded at '…'"
    | ReadDirError(at: string)   // "Failed to read directory '…': …"
    | ReadEntryError             // "Failed to read entry: …"
    | ReadMetadataError          // "Failed to read metadata: …"

  /** Entries the listing shows: readable, not hidden (no leading '.'), not a symbolic link. */
  predicate Shown(e: Entry) {
    e.Entry? && !StartsWith(e.name, ".") && !e.isSymlink
  }

  /** One node more in front of a listing that succeeded. */
  function Prepend(node: FileNode, rest: Result<seq<FileNode>, ListError>): Result<seq<FileNode>, ListError> {
    match rest
    case Err(e) => Err(e)
    case Ok(nodes) => Ok([node] + nodes)
  }

  /**
   * `list_directory_impl`: deeper than 50 levels fails; otherwise the shown entries become
   * nodes, a directory's children listed one level deeper only when the listing is recursive,
   * and the nodes are sorted. The first failure met, in entry order and depth first, is the
   * result.
   */
  function List(path: string, listing: Listing, recursive: bool, depth: nat): Result<seq<FileNode>, ListError>
    decreases listing, if listing.Entries? then |listing.entries| + 1 else 0
  {
    if depth > MaxDirectoryDepth then Err(DepthExceeded(path))
    else match listing
      case ReadDirFailed => Err(ReadDirError(path))
      case Entries(_) =>
        match Collect(listing, 0, recursive, depth)
        case Err(e) => Err(e)
        case Ok(nodes) => Ok(SortNodes(nodes))
  }

  /** The unsorted nodes of the entries from the `i`-th on, or the first failure among them. */
  function Collect(listing: Listing, i: nat, recursive: bool, depth: nat): Result<seq<FileNode>, ListError>
    requires listing.Entries? && i <= |listing.entries|
    decreases listing, |listing.entries| - i
  {
    if i == |listing.entries| then Ok([])
    else match listing.entries[i]
      case EntryFailed => Err(ReadEntryError)
      case MetadataFailed => Err(ReadMetadataError)
      case Entry(name, path, isDir, isSymlink, contents) =>
        if StartsWith(name, ".") || isSymlink then Collect(listing, i + 1, recursive, depth)
        else if isDir && recursive then
          match List(path, contents, recursive, depth + 1)
          case Err(e) => Err(e)
          case Ok(children) => Prepend(FileNode(name, path, true, Some(children)), Collect(listing, i + 1, recursive, depth))
        else Prepend(FileNode(name, path, isDir, None), Collect(listing, i + 1, recursive, depth))
  }

  /** Nodes collected so far, followed by what the remaining entries give. */
  function Append(nodes: seq<FileNode>, rest: Result<seq<FileNode>, ListError>): Result<seq<FileNode>, ListError> {
    match rest
    case Err(e) => Err(e)
    case Ok(more) => Ok(nodes + more)
  }

  /**
   * `list_directory_impl`: loops over the entries, pushing a node for each one shown and
   * listing subdirectories recursively, then sorts the nodes.
   */
  method ListDirectoryImpl(path: string, listing: Listing, recursive: bool, depth: nat)
    returns (r: Result<seq<FileNode>, ListError>)
    ensures r == List(path, listing, recursive, depth)
    decreases listing
  {
    if depth > MaxDirectoryDepth {
      return Err(DepthExceeded(path));
    }
    if listing.ReadDirFailed? {
      return Err(ReadDirError(path));
    }
    var nodes: seq<FileNode> := [];
    var i := 0;
    if Collect(listing, 0, recursive, depth).Ok? {
      assert [] + Collect(listing, 0, recursive, depth).value == Collect(listing, 0, recursive, depth).value;
    }
    while i < |listing.entries|
      invariant i <= |listing.entries|
      invariant Collect(listing, 0, recursive, depth) == Append(nodes, Collect(listing, i, recursive, depth))
    {
      var entry := listing.entries[i];
      if entry.EntryFailed? {
        CollectFailsAt(listing, i, recursive, depth, ReadEntryError, nodes);
        return Err(ReadEntryError);
      }
      if entry.MetadataFailed? {
        CollectFailsAt(listing, i, recursive, depth, ReadMetadataError, nodes);
        return Err(ReadMetadataError);
      }
      if StartsWith(entry.name, ".") || entry.isSymlink {
        i := i + 1;
        continue;
      }
      var children: Option<seq<FileNode>> := None;
      if entry.isDir && recursive {
        var sub := ListDirectoryImpl(entry.path, entry.contents, recursive, depth + 1);
        if sub.Err? {
          CollectFailsAt(listing, i, recursive, depth, sub.error, nodes);
          return Err(sub.error);
        }
        children := Some(sub.value);
      }
      var node := FileNode(entry.name, entry.path, entry.isDir, children);
      CollectShownAt(listing, i, recursive, depth, node);
      AppendStep(nodes, node, Collect(listing, i + 1, recursive, depth));
      nodes := nodes + [node];
      i := i + 1;
    }
    assert nodes + [] == nodes;
    return Ok(SortNodes(nodes));
  }

  /** A failure at the `i`-th entry is the failure of the whole listing. */
  lemma CollectFailsAt(listing: Listing, i: nat, recursive: bool, depth: nat, e: ListError, nodes: seq<FileNode>)
    requires listing.Entries? && i < |listing.entries|
    requires Collect(listing, i, recursive, depth) == Err(e)
    ensures Append(nodes, Collect(listing, i, recursive, depth)) == Err(e)
  {
  }

  /** A shown entry puts its node in front of what the later entries give. */
  lemma CollectShownAt(listing: Listing, i: nat, recursive: bool, depth: nat, node: FileNode)
    requires listing.Entries? && i < |listing.entries| && Shown(listing.entries[i])
    requires var e := listing.entries[i];
             node.name == e.name && node.path == e.path && node.isDirectory == e.isDir
             && (e.isDir && recursive ==> node.children.Some? && List(e.path, e.contents, recursive, depth + 1) == Ok(node.children.value))
             && (!(e.isDir && recursive) ==> node.children == None)
    ensures Collect(listing, i, recursive, depth) == Prepend(node, Collect(listing, i + 1, recursive, depth))
  {
  }

  lemma AppendStep(nodes: seq<FileNode>, node: FileNode, rest: Result<seq<FileNode>, ListError>)
    ensures Append(nodes, Prepend(node, rest)) == Append(nodes + [node], rest)
  {
    if rest.Ok? {
      assert nodes + ([node] + rest.value) == (nodes + [node]) + rest.value;
    }
  }

  // The order of the listing

  /** ASCII lower case of one character. */
  function Lower(c: char): char {
    if 'A' <= c <= 'Z' then (c as int + 32) as char else c
  }

  /** `to_lowercase` of a name. */
  function LowerName(s: string): (r: string)
    ensures |r| == |s| && forall i :: 0 <= i < |s| ==> r[i] == Lower(s[i])
  {
    seq(|s|, i requires 0 <= i < |s| => Lower(s[i]))
  }

  /** `a < b` for strings: lexicographic, character by character. */
  predicate Less(a: string, b: string) {
    if a == [] then b != []
    else b != [] && (a[0] < b[0] || (a[0] == b[0] && Less(a[1..], b[1..])))
  }

  /** The comparator of the sort: directories first, then names by their lower case. */
  predicate Before(a: FileNode, b: FileNode) {
    (a.isDirectory && !b.isDirectory)
    || (a.isDirectory == b.isDirectory && Less(LowerName(a.name), LowerName(b.name)))
  }

  /** No node is placed after one that should come after it. */
  predicate Sorted(s: seq<FileNode>) {
    forall i, j :: 0 <= i < j < |s| ==> !Before(s[j], s[i])
  }

  /** Places `n` after every node it does not come before, keeping equal nodes in order. */
  function Insert(n: FileNode, sorted: seq<FileNode>): (r: seq<FileNode>)
    ensures multiset(r) == multiset(sorted) + multiset{n}
  {
    if sorted == [] then [n]
    else if Before(n, sorted[0]) then [n] + sorted
    else
      assert sorted == [sorted[0]] + sorted[1..];
      [sorted[0]] + Insert(n, sorted[1..])
  }

  /** `sort_by` with the listing's comparator: a stable sort, here by insertion. */
  function SortNodes(nodes: seq<FileNode>): (r: seq<FileNode>)
    ensures multiset(r) == multiset(nodes)
  {
    if nodes == [] then []
    else
      assert nodes == nodes[..|nodes| - 1] + [nodes[|nodes| - 1]];
      Insert(nodes[|nodes| - 1], SortNodes(nodes[..|nodes| - 1]))
  }

  lemma {:induction false} LessIrreflexive(a: string)
    ensures !Less(a, a)
  {
    if a != [] {
      LessIrreflexive(a[1..]);
    }
  }

  lemma {:induction false} LessTransitive(a: string, b: string, c: string)
    requires Less(a, b) && Less(b, c)
    ensures Less(a, c)
  {
    if a != [] && a[0] == b[0] && b[0] == c[0] {
      LessTransitive(a[1..], b[1..], c[1..]);
    }
  }

  /** The comparator is a strict order: irreflexive and transitive, hence asymmetric. */
  lemma BeforeStrict(a: FileNode, b: FileNode, c: FileNode)
    ensures !Before(a, a)
    ensures Before(a, b) && Before(b, c) ==> Before(a, c)
    ensures Before(a, b) ==> !Before(b, a)
  {
    LessIrreflexive(LowerName(a.name));
    if Before(a, b) && Before(b, c) && a.isDirectory == b.isDirectory && b.isDirectory == c.isDirectory {
      LessTransitive(LowerName(a.name), LowerName(b.name), LowerName(c.name));
    }
    if Before(a, b) && Before(b, a) {
      LessTransitive(LowerName(a.name), LowerName(b.name), LowerName(a.name));
    }
  }

  lemma {:induction false} InsertSorted(n: FileNode, sorted: seq<FileNode>)
    requires Sorted(sorted)
    ensures Sorted(Insert(n, sorted))
    decreases |sorted|
  {
    if sorted != [] {
      if Before(n, sorted[0]) {
        SortedCons(n, sorted);
      } else {
        InsertSorted(n, sorted[1..]);
        InsertBehindHead(n, sorted);
      }
    }
  }

  /** A node that comes before the head of a sorted sequence can go in front of it. */
  lemma SortedCons(n: FileNode, sorted: seq<FileNode>)
    requires Sorted(sorted) && sorted != [] && Before(n, sorted[0])
    ensures Sorted([n] + sorted)
  {
    var r := [n] + sorted;
    forall i, j | 0 <= i < j < |r|
      ensures !Before(r[j], r[i])
    {
      if i == 0 {
        BeforeStrict(r[j], n, sorted[0]);
        if j > 1 {
          assert r[j] == sorted[j - 1];
        }
      } else {
        assert r[i] == sorted[i - 1] && r[j] == sorted[j - 1];
      }
    }
  }

  /** A node that does not come before the head is inserted, sorted, behind it. */
  lemma InsertBehindHead(n: FileNode, sorted: seq<FileNode>)
    requires Sorted(sorted) && sorted != [] && !Before(n, sorted[0])
    requires Sorted(Insert(n, sorted[1..]))
    ensures Sorted([sorted[0]] + Insert(n, sorted[1..]))
  {
    HeadFirst(sorted);
    SortedBehind(sorted[0], n, sorted[1..], Insert(n, sorted[1..]));
  }

  /** Nothing in a sorted sequence comes before its head. */
  lemma HeadFirst(sorted: seq<FileNode>)
    requires Sorted(sorted) && sorted != []
    ensures forall x :: x in sorted[1..] ==> !Before(x, sorted[0])
  {
    forall x | x in sorted[1..] ensures !Before(x, sorted[0]) {
      var k :| 0 <= k < |sorted[1..]| && sorted[1..][k] == x;
      assert sorted[k + 1] == x;
    }
  }

  lemma SortedBehind(head: FileNode, n: FileNode, rest: seq<FileNode>, tail: seq<FileNode>)
    requires !Before(n, head) && forall x :: x in rest ==> !Before(x, head)
    requires Sorted(tail) && multiset(tail) == multiset(rest) + multiset{n}
    ensures Sorted([head] + tail)
  {
    var r := [head] + tail;
    forall i, j | 0 <= i < j < |r|
      ensures !Before(r[j], r[i])
    {
      if i == 0 {
        assert r[j] == tail[j - 1];
        assert tail[j - 1] in multiset(rest) + multiset{n};
      } else {
        assert r[i] == tail[i - 1] && r[j] == tail[j - 1];
      }
    }
  }

  /** The sorted nodes are in the comparator's order. */
  lemma {:induction false} SortNodesSorted(nodes: seq<FileNode>)
    ensures Sorted(SortNodes(nodes))
  {
    if nodes != [] {
      SortNodesSorted(nodes[..|nodes| - 1]);
      InsertSorted(nodes[|nodes| - 1], SortNodes(nodes[..|nodes| - 1]));
    }
  }

  /**
   * A listing comes out in the documented order: every directory before every file, and
   * within each group names ascending by their lower case.
   */
  lemma ListingOrder(path: string, listing: Listing, recursive: bool, depth: nat)
    requires List(path, listing, recursive, depth).Ok?
    ensures var nodes := List(path, listing, recursive, depth).value;
            (forall i, j :: 0 <= i < j < |nodes| && nodes[j].isDirectory ==> nodes[i].isDirectory)
            && (forall i, j :: 0 <= i < j < |nodes| && nodes[i].isDirectory == nodes[j].isDirectory
                  ==> !Less(LowerName(nodes[j].name), LowerName(nodes[i].name)))
  {
    SortNodesSorted(Collect(listing, 0, recursive, depth).value);
  }

  // What the listing shows

  /** The name, path and kind of a node. */
  function NodeKey(n: FileNode): (string, string, bool) {
    (n.name, n.path, n.isDirectory)
  }

  function NodeKeys(ns: seq<FileNode>): (r: seq<(string, string, bool)>)
    ensures |r| == |ns| && forall k :: 0 <= k < |ns| ==> r[k] == NodeKey(ns[k])
  {
    seq(|ns|, k requires 0 <= k < |ns| => NodeKey(ns[k]))
  }

  /** The name, path and kind of the shown entries from the `i`-th on, in order. */
  function ShownKeys(entries: seq<Entry>, i: nat): seq<(string, string, bool)>
    requires i <= |entries|
    decreases |entries| - i
  {
    if i == |entries| then []
    else if Shown(entries[i]) then [(entries[i].name, entries[i].path, entries[i].isDir)] + ShownKeys(entries, i + 1)
    else ShownKeys(entries, i + 1)
  }

  /** Whether each node has children exactly when it is a directory of a recursive listing. */
  predicate ChildrenRule(ns: seq<FileNode>, recursive: bool) {
    forall n | n in ns :: n.children.Some? <==> n.isDirectory && recursive
  }

  /** The unsorted nodes are the shown entries, in order, with children by the rule. */
  lemma {:induction false} CollectShows(listing: Listing, i: nat, recursive: bool, depth: nat)
    requires listing.Entries? && i <= |listing.entries|
    requires Collect(listing, i, recursive, depth).Ok?
    ensures var nodes := Collect(listing, i, recursive, depth).value;
            NodeKeys(nodes) == ShownKeys(listing.entries, i) && ChildrenRule(nodes, recursive)
    decreases |listing.entries| - i
  {
    if i < |listing.entries| {
      CollectShows(listing, i + 1, recursive, depth);
      var rest := Collect(listing, i + 1, recursive, depth).value;
      if Shown(listing.entries[i]) {
        var nodes := Collect(listing, i, recursive, depth).value;
        assert nodes == [nodes[0]] + rest;
        NodeKeysCons(nodes[0], rest);
      }
    }
  }

  lemma NodeKeysCons(n: FileNode, ns: seq<FileNode>)
    ensures NodeKeys([n] + ns) == [NodeKey(n)] + NodeKeys(ns)
  {
  }

  lemma NodeKeysSnoc(ns: seq<FileNode>, n: FileNode)
    ensures NodeKeys(ns + [n]) == NodeKeys(ns) + [NodeKey(n)]
  {
  }

  lemma {:induction false} InsertKeys(n: FileNode, sorted: seq<FileNode>)
    ensures multiset(NodeKeys(Insert(n, sorted))) == multiset(NodeKeys(sorted)) + multiset{NodeKey(n)}
  {
    if sorted == [] {
      assert NodeKeys([n]) == [NodeKey(n)];
    } else if Before(n, sorted[0]) {
      NodeKeysCons(n, sorted);
    } else {
      InsertKeys(n, sorted[1..]);
      NodeKeysCons(sorted[0], Insert(n, sorted[1..]));
      NodeKeysCons(sorted[0], sorted[1..]);
      assert [sorted[0]] + sorted[1..] == sorted;
    }
  }

  lemma {:induction false} SortKeys(nodes: seq<FileNode>)
    ensures multiset(NodeKeys(SortNodes(nodes))) == multiset(NodeKeys(nodes))
  {
    if nodes != [] {
      var init := nodes[..|nodes| - 1];
      var last := nodes[|nodes| - 1];
      assert init + [last] == nodes;
      assert SortNodes(nodes) == Insert(last, SortNodes(init));
      SortKeys(init);
      InsertKeys(last, SortNodes(init));
      NodeKeysSnoc(init, last);
      assert multiset(NodeKeys(init) + [NodeKey(last)]) == multiset(NodeKeys(init)) + multiset{NodeKey(last)};
    }
  }

  /**
   * A listing shows each entry that is readable, not hidden and not a symbolic link exactly
   * once, and nothing else; a node has children exactly when it is a directory and the
   * listing is recursive.
   */
  lemma ListingShows(path: string, listing: Listing, recursive: bool, depth: nat)
    requires List(path, listing, recursive, depth).Ok?
    ensures listing.Entries?
    ensures var nodes := List(path, listing, recursive, depth).value;
            multiset(NodeKeys(nodes)) == multiset(ShownKeys(listing.entries, 0))
            && ChildrenRule(nodes, recursive)
  {
    var collected := Collect(listing, 0, recursive, depth).value;
    CollectShows(listing, 0, recursive, depth);
    SortKeys(collected);
    var nodes := SortNodes(collected);
    forall n | n in nodes
      ensures n.children.Some? <==> n.isDirectory && recursive
    {
      assert n in multiset(collected);
    }
  }

  /** No hidden entry and no symbolic link ever becomes a node. */
  lemma {:induction false} HiddenAndLinksNotShown(entries: seq<Entry>, i: nat, key: (string, string, bool))
    requires i <= |entries|
    requires key in ShownKeys(entries, i)
    ensures !StartsWith(key.0, ".")
    ensures exists k :: i <= k < |entries| && Shown(entries[k]) && key == (entries[k].name, entries[k].path, entries[k].isDir)
    decreases |entries| - i
  {
    if Shown(entries[i]) && key == (entries[i].name, entries[i].path, entries[i].isDir) {
    } else {
      HiddenAndLinksNotShown(entries, i + 1, key);
    }
  }

  /**
   * Depth only limits descent: a listing that does not recurse, started within the limit,
   * never fails for depth.
   */
  lemma {:induction false} FlatListingWithinDepth(listing: Listing, i: nat, depth: nat)
    requires listing.Entries? && i <= |listing.entries| && depth <= MaxDirectoryDepth
    ensures Collect(listing, i, false, depth).Err? ==> Collect(listing, i, false, depth).error in {ReadEntryError, ReadMetadataError}
    decreases |listing.entries| - i
  {
    if i < |listing.entries| {
      FlatListingWithinDepth(listing, i + 1, depth);
    }
  }

  /** A directory 51 levels below the start is never listed: reaching it fails. */
  lemma TooDeepFails(path: string, listing: Listing, recursive: bool, depth: nat)
    requires depth > MaxDirectoryDepth
    ensures List(path, listing, recursive, depth) == Err(DepthExceeded(path))
  {
  }

  // ---------------------------------------------------------------------------------------
  // The one-shot language-server connection

  /** Why `lsp_send_request` failed; the I/O error texts that follow each message are not modelled. */
  datatype LspRequestError =
    | NotConnected           // "LSP connection not established"
    | SendFailed             // "Failed to send LSP request: …"
    | FlushFailed            // "Failed to flush LSP stream: …"
    | ReadFailed(reason: FrameError)  // "Failed to read LSP response: …"

  /**
   * `LSPConnection`: whether a stream is held, the bytes written to it since it was opened,
   * and the bytes the server will still send on it.
   */
  class LspConnection {
    var connected: bool
    var sent: seq<Byte>
    var unread: seq<Byte>

    /** `default`: no stream. */
    constructor ()
      ensures !connected && sent == [] && unread == []
    {
      connected := false;
      sent := [];
      unread := [];
    }

    /**
     * `lsp_connect`: `server` is what the server will send once connected, or None when the
     * connection is refused. A refused connection keeps the stream held before.
     */
    method Connect(host: string, port: Port, server: Option<seq<Byte>>) returns (r: Result<(), string>)
      modifies this
      ensures server.None? ==> r == Err("Failed to connect to LSP server at " + host + ":" + Decimal(port))
      ensures server.None? ==> connected == old(connected) && sent == old(sent) && unread == old(unread)
      ensures server.Some? ==> r == Ok(()) && connected && sent == [] && unread == server.value
    {
      if server.None? {
        return Err("Failed to connect to LSP server at " + host + ":" + Decimal(port));
      }
      connected := true;
      sent := [];
      unread := server.value;
      return Ok(());
    }

    /** `lsp_disconnect`: drops the stream, if any; always succeeds. */
    method Disconnect() returns (r: Result<(), string>)
      modifies this
      ensures r == Ok(()) && !connected && sent == old(sent) && unread == old(unread)
    {
      connected := false;
      return Ok(());
    }

    /**
     * `lsp_send_request`: frames `message` with its byte length, writes and flushes it, then
     * reads one message back, which is the result. `written` and `flushed` say whether the
     * write and the flush succeed.
     */
    method SendRequest(message: string, written: bool, flushed: bool) returns (r: Result<string, LspRequestError>)
      modifies this
      ensures connected == old(connected)
      ensures !old(connected) ==> r == Err(NotConnected) && sent == old(sent) && unread == old(unread)
      ensures old(connected) && !written ==> r == Err(SendFailed) && sent == old(sent) && unread == old(unread)
      ensures old(connected) && written ==> sent == old(sent) + Frame(message)
      ensures old(connected) && written && !flushed ==> r == Err(FlushFailed) && unread == old(unread)
      ensures old(connected) && written && flushed ==>
                match ReadMessage(old(unread))
                case Ok((text, rest)) => r == Ok(text) && unread == rest
                case Err(e) => r == Err(ReadFailed(e)) && unread == []
    {
      if !connected {
        return Err(NotConnected);
      }
      if !written {
        return Err(SendFailed);
      }
      sent := sent + Frame(message);
      if !flushed {
        return Err(FlushFailed);
      }
      var response := ReadLspMessage(unread);
      if response.Err? {
        unread := [];
        return Err(ReadFailed(response.error));
      }
      unread := response.value.1;
      return Ok(response.value.0);
    }
  }

  /**
   * A server that answers a request with one framed message: the request's answer is that
   * message's text, and what the server sends after it stays unread.
   */
  lemma FramedAnswer(answer: string, after: seq<Byte>)
    requires ByteLen(answer) < UsizeLimit
    ensures ReadMessage(Frame(answer) + after) == Ok((answer, after))
  {
    FrameRoundTrip(answer, after);
  }

  // ---------------------------------------------------------------------------------------
  // Application state and the terminal session

  /** `ServicePorts`: the tool's HTTP API port, its language-server port, and the proxy's port. */
  datatype ServicePorts = ServicePorts(apiPort: Port, lspPort: Port, lspProxyPort: Port)

  /** The ports `AppState::default` holds before any session was started. */
  const DefaultPorts: ServicePorts := ServicePorts(5858, 5757, 5758)

  /** The first port tried for the WebSocket proxy. */
  const ProxyPortSearchStart: Port := 5758

  const ProxyPortError: string := "Could not find available port for LSP WebSocket proxy"
  const NotSpawned: string := "UCM PTY not spawned"

  /**
   * `AppState`, as far as the terminal session goes: the session manager, the stored ports,
   * the port the HTTP client talks to (None while there is no client), and the proxies
   * started, each as its own port and the language-server port it forwards to.
   */
  class AppState {
    var pty: Option<UcmPtyManager>
    var ports: ServicePorts
    var apiClientPort: Option<Port>
    var proxies: seq<(Port, Port)>

    /** `default`. */
    constructor ()
      ensures pty == None && ports == DefaultPorts && apiClientPort == None && proxies == []
    {
      pty := None;
      ports := DefaultPorts;
      apiClientPort := None;
      proxies := [];
    }

    /** `get_service_ports`. */
    function GetServicePorts(): ServicePorts
      reads this
    {
      ports
    }

    /**
     * `ucm_pty_spawn`: a session that is still running is kept and the stored ports are
     * returned. Otherwise the old session is dropped and a new one is started; once it runs,
     * a port for the proxy is searched from 5758, and only when one is found are the new
     * ports stored, the HTTP client pointed at the new API port and the proxy started.
     * `free` and `proxyFree` are the port probes of the two searches.
     */
    method UcmPtySpawn(free: Port -> bool, startError: Option<string>, proxyFree: Port -> bool)
      returns (r: Result<ServicePorts, string>)
      modifies this
      ensures old(pty.Some? && pty.value.running) ==>
                r == Ok(old(ports)) && pty == old(pty) && ports == old(ports)
                && apiClientPort == old(apiClientPort) && proxies == old(proxies)
      ensures !old(pty.Some? && pty.value.running) && (FindAvailablePort(free, ApiPortSearchStart).None? || startError.Some?) ==>
                r.Err? && pty == None && ports == old(ports)
                && apiClientPort == old(apiClientPort) && proxies == old(proxies)
      ensures !old(pty.Some? && pty.value.running) && FindAvailablePort(free, ApiPortSearchStart).None? ==>
                r == Err(ApiPortError)
      ensures !old(pty.Some? && pty.value.running) && FindAvailablePort(free, ApiPortSearchStart).Some? && startError.Some? ==>
                r == Err(startError.value)
      ensures !old(pty.Some? && pty.value.running) && FindAvailablePort(free, ApiPortSearchStart).Some? && startError.None? ==>
                pty.Some? && fresh(pty.value) && pty.value.running
                && pty.value.ports == UcmPorts(FindAvailablePort(free, ApiPortSearchStart).value, UcmLspPort)
                && pty.value.Reader() == ReaderState(true, NoContext, [], Reading)
                && pty.value.events == [] && pty.value.written == []
      ensures !old(pty.Some? && pty.value.running) && FindAvailablePort(free, ApiPortSearchStart).Some? && startError.None?
              && FindAvailablePort(proxyFree, ProxyPortSearchStart).None? ==>
                r == Err(ProxyPortError) && ports == old(ports)
                && apiClientPort == old(apiClientPort) && proxies == old(proxies)
      ensures !old(pty.Some? && pty.value.running) && FindAvailablePort(free, ApiPortSearchStart).Some? && startError.None?
              && FindAvailablePort(proxyFree, ProxyPortSearchStart).Some? ==>
                var api := FindAvailablePort(free, ApiPortSearchStart).value;
                var proxy := FindAvailablePort(proxyFree, ProxyPortSearchStart).value;
                r == Ok(ServicePorts(api, UcmLspPort, proxy)) && ports == r.value
                && apiClientPort == Some(api) && proxies == old(proxies) + [(proxy, UcmLspPort)]
    {
      if pty.Some? {
        if pty.value.running {
          return Ok(ports);
        }
        pty := None;
      }
      var spawned := Spawn(free, startError);
      if spawned.Err? {
        return Err(spawned.error);
      }
      var manager := spawned.value;
      pty := Some(manager);
      var proxyPort := FindAvailablePort(proxyFree, ProxyPortSearchStart);
      if proxyPort.None? {
        return Err(ProxyPortError);
      }
      ports := ServicePorts(manager.ports.apiPort, manager.ports.lspPort, proxyPort.value);
      apiClientPort := Some(manager.ports.apiPort);
      proxies := proxies + [(proxyPort.value, manager.ports.lspPort)];
      return Ok(ports);
    }

    /** `ucm_pty_kill`: stops the session, if any, and forgets it. */
    method UcmPtyKill() returns (r: Result<(), string>)
      modifies this, if pty.Some? then {pty.value} else {}
      ensures r == Ok(()) && pty == None
      ensures old(pty).Some? ==> !old(pty).value.running
      ensures ports == old(ports) && apiClientPort == old(apiClientPort) && proxies == old(proxies)
    {
      if pty.Some? {
        var manager := pty.value;
        pty := None;
        manager.Stop();
      }
      return Ok(());
    }

    /** `ucm_pty_write`: fails without a session; otherwise the session's `write`. */
    method UcmPtyWrite(data: string, writeError: Option<string>, flushError: Option<string>)
      returns (r: Result<(), string>)
      modifies if pty.Some? then {pty.value} else {}
      ensures pty.None? ==> r == Err(NotSpawned)
      ensures pty.Some? ==> r == WriteOutcome(writeError, flushError)
      ensures pty.Some? ==> pty.value.written == old(pty.value.written) + (if writeError.None? then Encode(data) else [])
      ensures pty.Some? ==> pty.value.Reader() == old(pty.value.Reader()) && pty.value.events == old(pty.value.events)
    {
      if pty.None? {
        return Err(NotSpawned);
      }
      r := pty.value.Write(Encode(data), writeError, flushError);
    }

    /** `ucm_pty_switch_context`: fails without a session; otherwise writes the `switch` command. */
    method UcmPtySwitchContext(project: string, branch: string, writeError: Option<string>, flushError: Option<string>)
      returns (r: Result<(), string>)
      modifies if pty.Some? then {pty.value} else {}
      ensures pty.None? ==> r == Err(NotSpawned)
      ensures pty.Some? ==> r == WriteOutcome(writeError, flushError)
      ensures pty.Some? ==> pty.value.written == old(pty.value.written) + (if writeError.None? then SwitchCommand(project, branch) else [])
      ensures pty.Some? ==> pty.value.Reader() == old(pty.value.Reader()) && pty.value.events == old(pty.value.events)
    {
      if pty.None? {
        return Err(NotSpawned);
      }
      r := pty.value.SwitchContext(project, branch, writeError, flushError);
    }

    /** `ucm_pty_get_context`: fails without a session; otherwise the context it last saw. */
    method UcmPtyGetContext() returns (r: Result<UcmContext, string>)
      ensures pty.None? ==> r == Err(NotSpawned)
      ensures pty.Some? ==> r == Ok(pty.value.context)
    {
      if pty.None? {
        return Err(NotSpawned);
      }
      return Ok(pty.value.GetContext());
    }
  }
}
