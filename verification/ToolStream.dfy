/**
 The seven mutating tools behind the cache: a stream of calls on the workspaces, retries
 included, has the effect of the stream without the retries.
 */
module ToolStream {
  import opened Base
  import opened Paths
  import opened Store
  import RequestCache
  import Service
  import FileTools
  import D = Deduplicate

  /** What a call meets outside the model: document checks, scan orders, the engine's runs. */
  datatype Circumstances = Circumstances(shapeOk: bool, inputOk: bool, outputOk: bool,
                                         order: seq<Path>, commitOrder: seq<Path>, tempName: string,
                                         create: FileTools.Engine, batch: Option<FileTools.Engine>)

  datatype ToolCall = ToolCall(request: Service.Request, requestId: string, around: Circumstances)

  /** The server: its configuration, the cache settings, the key hashing, and its messages. */
  datatype Server = Server(cfg: Service.Config, settings: RequestCache.Settings,
                           hashing: D.Hashing<Service.Request>, describe: ToolError -> string)

  const NEVER_RETURNS := "never returns"

  function ToolName(tool: Service.Tool): string {
    match tool
    case FsWrite(_, _, _) => "fs_write"
    case FsEdit(_, _, _) => "fs_edit"
    case FsMove(_, _) => "fs_move"
    case FsDelete(_, _) => "fs_delete"
    case DocCreate(_, _) => "doc_create"
    case DocEdit(_) => "doc_edit"
    case SheetSetCells(_, _, _) => "sheet_set_cells"
  }

  function AsIncoming(r: Service.Request, requestId: string): D.Incoming<Service.Request> {
    D.Incoming(ToolName(r.tool), Some(D.Identity(r.userId, requestId)), r)
  }

  function RequestKey(server: Server, r: Service.Request, requestId: string): Option<RequestCache.Key> {
    D.KeyOf(server.hashing, true, AsIncoming(r, requestId))
  }

  function Key(server: Server, c: ToolCall): Option<RequestCache.Key> {
    RequestKey(server, c.request, c.requestId)
  }

  /** `textResult` and `toolError`: a tool that fails still returns a result, without a Go error. */
  function ResultOf(server: Server, tool: Service.Tool, o: Outcome, before: Tree): D.Ran<Tree> {
    match o
    case Success(tree) => D.Ran(tree, RequestCache.CallResult(false, ToolName(tool)), None)
    case Failure(tree, why) => D.Ran(tree, RequestCache.CallResult(true, server.describe(why)), None)
    case Hangs => D.Ran(before, RequestCache.NoResult, Some(NEVER_RETURNS))
  }

  /** The outcome of one Office call with no other call in between. */
  ghost function OfficeCall(server: Server, fs: Tree, root: Path, c: ToolCall): Outcome
    requires !Service.IsFileTool(c.request.tool)
  {
    var x, tool := c.around, c.request.tool;
    if !Service.ShapeOk(tool, x.shapeOk) then Failure(fs, InputRejected)
    else match Service.RunCheck(server.cfg.lim, fs, root, x.order, tool, x.inputOk)
      case Refused(why) => Failure(fs, why)
      case Stuck => Hangs
      case Proceed(final, isNew) =>
        if tool.DocCreate? then
          var temp := Service.TempPath(final, x.tempName);
          FileTools.CreateLocked(server.cfg.lim, fs, x.commitOrder, final, temp, isNew, x.create, x.batch, x.outputOk)
        else
          var named := TempName(root, tool.path, x.tempName);
          FileTools.EditLocked(server.cfg.lim, fs, x.commitOrder, final, TempPlace(fs, named), named, x.create,
              x.outputOk)
  }

  /** The handler of a mutating tool. */
  ghost function Handle(server: Server, fs: Tree, c: ToolCall): D.Ran<Tree> {
    match Service.Target(server.cfg, c.request)
    case Err(message) => D.Ran(fs, RequestCache.CallResult(true, message), None)
    case Ok(grant) =>
      var root, tree := Service.RootOf(server.cfg, grant.id), Service.WithRoot(server.cfg, fs, grant.id);
      if Service.IsFileTool(c.request.tool)
      then ResultOf(server, c.request.tool,
          Service.RunFileTool(server.cfg.lim, tree, root, c.around.order, c.request.tool), tree)
      else ResultOf(server, c.request.tool, OfficeCall(server, tree, root, c), tree)
  }

  /** The server as a world of handlers and keys. */
  ghost function Handlers(server: Server): D.World<Tree, ToolCall> {
    D.World(server.settings, (fs, c) => Handle(server, fs, c), c => Key(server, c))
  }

  /** Every call with a request id is deduplicated, under the class of its user, request id, tool and parameters. */
  lemma RequestKeys(server: Server, a: Service.Request, x: string, b: Service.Request, y: string)
    requires D.SoundHashing(server.hashing)
    ensures RequestKey(server, a, x).Some? <==> x != "" && server.hashing.canonical(a).Some?
    ensures RequestKey(server, a, x).Some? && RequestKey(server, b, y).Some? ==>
              (RequestKey(server, a, x) == RequestKey(server, b, y) <==>
                 && a.userId == b.userId && x == y && ToolName(a.tool) == ToolName(b.tool)
                 && server.hashing.canonical(a) == server.hashing.canonical(b))
  {
    assert D.MutatingTool(ToolName(a.tool)) && D.MutatingTool(ToolName(b.tool));
    if RequestKey(server, a, x).Some? && RequestKey(server, b, y).Some? {
      D.SameKeyIff(server.hashing, AsIncoming(a, x), AsIncoming(b, y));
    }
  }

  lemma RequestKeyNotEmpty(server: Server, r: Service.Request, requestId: string)
    requires RequestKey(server, r, requestId).Some?
    ensures RequestKey(server, r, requestId).value != ""
  {
    D.KeyNotEmpty(server.hashing, AsIncoming(r, requestId));
  }

  /** Along the stream without repeats every call returns. */
  ghost predicate AllReturn(server: Server, fs: Tree, calls: seq<ToolCall>) {
    forall n :: 0 <= n < |calls| ==> D.RunAll(Handlers(server), fs, calls).runs[n].err != Some(NEVER_RETURNS)
  }

  lemma HandlerErrors(server: Server, fs: Tree, c: ToolCall)
    ensures Handle(server, fs, c).err == None || Handle(server, fs, c).err == Some(NEVER_RETURNS)
  {
  }

  lemma {:induction false} RunErrors(server: Server, fs: Tree, calls: seq<ToolCall>, n: nat)
    requires n < |calls|
    ensures var run := D.RunAll(Handlers(server), fs, calls).runs[n]; run.err == None || run.err == Some(NEVER_RETURNS)
    decreases |calls|
  {
    var before := D.RunAll(Handlers(server), fs, calls[..|calls| - 1]);
    if n == |calls| - 1 {
      HandlerErrors(server, before.store, calls[n]);
    } else {
      RunErrors(server, fs, calls[..|calls| - 1], n);
    }
  }

  /**
   For the tools themselves: every stream of tool calls in which no entry is lost that is
   still wanted leaves the workspaces as the stream without its repeats does, and answers
   every repeat with the copy its first call was given.
   */
  lemma RetriesChangeNothing(server: Server, fs: Tree, calls: seq<D.Arrival<ToolCall>>)
    requires RequestCache.Faithful(server.settings.codec)
    requires forall r :: server.settings.codec.encode(r).Some?
    requires D.Admissible(Handlers(server), fs, calls) && D.Unlost(Handlers(server), fs, calls)
    requires AllReturn(server, fs, D.Firsts(Handlers(server), calls))
    ensures var w := Handlers(server);
            && D.PassAll(w, fs, calls).store == D.RunAll(w, fs, D.Firsts(w, calls)).store
            && D.AnsweredOnce(w, fs, calls, D.PassAll(w, fs, calls).replies)
  {
    var w := Handlers(server);
    var firsts := D.Firsts(w, calls);
    forall n | 0 <= n < |firsts| && w.keyOf(firsts[n]).Some?
      ensures D.Kept(server.settings.codec, D.RunAll(w, fs, firsts).runs[n].result, D.RunAll(w, fs, firsts).runs[n].err)
    {
      RunErrors(server, fs, firsts, n);
    }
    D.ExactlyOnce(w, fs, calls);
  }
}
