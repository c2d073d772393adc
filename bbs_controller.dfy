/**
 * The board controller: one handler per route. Each handler seeds the Spring
 * model, may create and run one command, and names the view to render or the
 * URL to redirect to. The password gate (`PasswordAction`) decides from the
 * DAO's match count whether the edit form or the delete command may run.
 *
 * The DAO is not part of this model: its answers are inputs (`rowExist` for
 * `dao.password(idx, pass)`, the row object for `dao.view(idx)`). Commands
 * whose code is not part of this model are recorded in `executed`, with the
 * model they were given; the attributes they add are an input, `writes`.
 *
 * Each handler is modelled as one request handled on its own. The `command`
 * field is shared by every request the controller serves; what that allows
 * between concurrent requests is shown by `SharedFieldInterleaving`.
 */
module Controller {
  import opened Mvc
  import opened Commands
  import Crlf

  /** One `command.execute(model)`: which command ran and the model's attributes when it started. */
  datatype Invocation = Invocation(command: Command, model: map<string, Value>)

  /** The outcomes of the password check. */
  datatype Decision =
    | Rejected        // no row matched: back to the password page
    | EditForm        // matched, mode "edit": run EditCommand, show the edit form
    | Deleted         // matched, mode "delete": run DeleteActionCommand, go back to the list
    | NoMode          // matched, any other mode: nothing runs and no view is named

  const IncorrectPasswordMessage: string := "패스워드가 일치하지 않습니다."

  /**
   * The decision `passwordAction` takes on the DAO's match count and the
   * "mode" parameter. A missing mode on a match makes the source throw
   * (`mode.equals` on null), so callers must not send one.
   */
  function Gate(rowExist: int, mode: Option<string>): (d: Decision)
    requires rowExist > 0 ==> mode.Some?
    ensures d == Rejected <==> rowExist <= 0
    ensures d == EditForm <==> rowExist > 0 && mode == Some("edit")
    ensures d == Deleted <==> rowExist > 0 && mode == Some("delete")
    ensures d == NoMode <==> rowExist > 0 && mode.value != "edit" && mode.value != "delete"
  {
    if rowExist <= 0 then Rejected
    else if mode.value == "edit" then EditForm
    else if mode.value == "delete" then Deleted
    else NoMode
  }

  /**
   * The view name or redirect `passwordAction` returns for a decision; `None`
   * is Java's null. Only a rejection goes back to the password page, and only
   * a delete redirects.
   */
  function GateView(d: Decision): (v: Option<string>)
    ensures v == Some("07Board/password") <==> d == Rejected
    ensures (v.Some? && "redirect:" <= v.value) <==> d == Deleted
    ensures v.None? <==> d == NoMode
  {
    match d
    case Rejected =>
      assert "redirect:"[0] != "07Board/password"[0];
      Some("07Board/password")
    case EditForm =>
      assert "redirect:"[0] != "07Board/edit"[0];
      Some("07Board/edit")
    case Deleted => Some("redirect:list.do")
    case NoMode => None
  }

  /**
   * The command `passwordAction` runs for a decision, if any: one runs exactly
   * when the page returned is neither the password page nor null, and it is
   * never the list or view command.
   */
  function GateCommand(d: Decision): (c: Option<Command>)
    ensures c.Some? <==> GateView(d).Some? && GateView(d) != Some("07Board/password")
    ensures c.Some? ==> c.value != ListCommand && c.value != ViewCommand
  {
    match d
    case EditForm => Some(EditCommand)
    case Deleted => Some(DeleteActionCommand)
    case _ => None
  }

  /** Gate invariant: the edit form and the delete command are reached only through a matching password. */
  lemma GateGuardsCommands(rowExist: int, mode: Option<string>)
    requires rowExist > 0 ==> mode.Some?
    ensures GateCommand(Gate(rowExist, mode)).Some? ==> rowExist > 0
    ensures GateCommand(Gate(rowExist, mode)) == Some(DeleteActionCommand) <==> rowExist > 0 && mode == Some("delete")
    ensures GateCommand(Gate(rowExist, mode)) == Some(EditCommand) <==> rowExist > 0 && mode == Some("edit")
  {
  }

  class BbsController {
    /** The field every handler that runs a command assigns a fresh command to before running it. */
    var command: Option<Command>
    /** Every command run so far, in order. */
    var executed: seq<Invocation>

    constructor ()
      ensures command == None && executed == []
    {
      command := None;
      executed := [];
    }

    /** `command = new C();`: the shared field now holds a fresh command of class `c`. */
    method Assign(c: Command)
      modifies this`command
      ensures command == Some(c)
    {
      command := Some(c);
    }

    /**
     * `command.execute(model);` for whatever command the field holds when the
     * call is made, when its code is not part of this model: the run is
     * recorded, and the model gains `writes`.
     */
    method ExecuteCurrent(model: Model, writes: map<string, Value>)
      requires command.Some? && command.value != ViewCommand
      modifies this`executed, model
      ensures executed == old(executed) + [Invocation(command.value, old(model.attributes))]
      ensures model.attributes == old(model.attributes) + writes
    {
      executed := executed + [Invocation(command.value, model.attributes)];
      model.attributes := model.attributes + writes;
    }

    /** `command.execute(model);` when the field holds a ViewCommand: the run is recorded, then ViewCommand's code runs. */
    method ExecuteCurrentView(model: Model, row: BbsPost)
      requires command == Some(ViewCommand) && HasRequest(model.attributes)
      modifies this`executed, model, row`contents
      ensures executed == old(executed) + [Invocation(ViewCommand, old(model.attributes))]
      ensures row.contents == Crlf.ReplaceCrlf(old(row.contents))
      ensures model.attributes ==
        old(model.attributes)["viewRow" := Row(row)]
                             ["nowPage" := ParamValue(old(model.attributes)["req"].request.GetParameter("nowPage"))]
    {
      executed := executed + [Invocation(command.value, model.attributes)];
      ExecuteView(model, row);
    }

    /**
     * `command = new C(); command.execute(model);` with nothing in between,
     * as within one request handled on its own: the command that runs is `c`.
     */
    method Run(c: Command, model: Model, writes: map<string, Value>)
      requires c != ViewCommand
      modifies this, model
      ensures command == Some(c)
      ensures executed == old(executed) + [Invocation(c, old(model.attributes))]
      ensures model.attributes == old(model.attributes) + writes
    {
      Assign(c);
      ExecuteCurrent(model, writes);
    }

    /** "/board/list.do": hand the request to ListCommand, then show the list page. */
    method List(model: Model, req: Request, writes: map<string, Value>) returns (view: string)
      modifies this, model
      ensures view == "07Board/list"
      ensures command == Some(ListCommand)
      ensures executed == old(executed) + [Invocation(ListCommand, old(model.attributes)["req" := Req(req)])]
      ensures model.attributes == old(model.attributes)["req" := Req(req)] + writes
    {
      model.AddAttribute("req", Req(req));
      Run(ListCommand, model, writes);
      view := "07Board/list";
    }

    /** "/board/write.do": show the empty form; nothing runs and the model is untouched. */
    method Write(model: Model) returns (view: string)
      ensures view == "07Board/write"
    {
      view := "07Board/write";
    }

    /** "/board/writeAction.do": WriteActionCommand stores the posted form, then the list's first page is shown. */
    method WriteAction(model: Model, req: Request, form: BbsPost, writes: map<string, Value>)
      returns (view: string)
      modifies this, model
      ensures view == "redirect:list.do?nowPage=1"
      ensures command == Some(WriteActionCommand)
      ensures executed == old(executed) +
        [Invocation(WriteActionCommand, old(model.attributes)["req" := Req(req)]["springBbsDTO" := Row(form)])]
      ensures model.attributes == old(model.attributes)["req" := Req(req)]["springBbsDTO" := Row(form)] + writes
    {
      model.AddAttribute("req", Req(req));
      model.AddAttribute("springBbsDTO", Row(form));
      Run(WriteActionCommand, model, writes);
      view := "redirect:list.do?nowPage=1";
    }

    /** "/board/view.do": ViewCommand puts the normalised row into the model, then the post is shown. */
    method View(model: Model, req: Request, row: BbsPost) returns (view: string)
      modifies this, model, row`contents
      ensures view == "07Board/view"
      ensures command == Some(ViewCommand)
      ensures executed == old(executed) + [Invocation(ViewCommand, old(model.attributes)["req" := Req(req)])]
      ensures row.contents == Crlf.ReplaceCrlf(old(row.contents))
      ensures model.attributes ==
        old(model.attributes)["req" := Req(req)]["viewRow" := Row(row)]
                             ["nowPage" := ParamValue(req.GetParameter("nowPage"))]
    {
      model.AddAttribute("req", Req(req));
      Assign(ViewCommand);
      ExecuteCurrentView(model, row);
      view := "07Board/view";
    }

    /** "/board/password.do": the password page, with the post's "idx" passed on. */
    method Password(model: Model, req: Request) returns (view: string)
      modifies model
      ensures view == "07Board/password"
      ensures model.attributes == old(model.attributes)["idx" := ParamValue(req.GetParameter("idx"))]
    {
      model.AddAttribute("idx", ParamValue(req.GetParameter("idx")));
      view := "07Board/password";
    }

    /**
     * "/board/passwordAction.do". `rowExist` is the number of rows the DAO
     * found for the request's "idx" and "pass". No match: back to the password
     * page with a message. A match: the "mode" parameter selects the edit form
     * or the delete; any other mode returns null with nothing run.
     */
    method PasswordAction(model: Model, req: Request, rowExist: int, writes: map<string, Value>)
      returns (view: Option<string>)
      requires rowExist > 0 ==> req.GetParameter("mode").Some?
      modifies this, model
      ensures view == GateView(Gate(rowExist, req.GetParameter("mode")))
      // the gate, for a request handled on its own: a command runs only after a match
      ensures executed != old(executed) ==> rowExist > 0
      // the command run is the one the decision table names, and only that one
      ensures GateCommand(Gate(rowExist, req.GetParameter("mode"))).None? ==> executed == old(executed)
      ensures GateCommand(Gate(rowExist, req.GetParameter("mode"))).Some? ==>
        executed == old(executed) +
          [Invocation(GateCommand(Gate(rowExist, req.GetParameter("mode"))).value, old(model.attributes)["req" := Req(req)])]
      ensures match Gate(rowExist, req.GetParameter("mode"))
        case Rejected =>
          && executed == old(executed) && command == old(command)
          && model.attributes == old(model.attributes)["isCorrMsg" := Text(IncorrectPasswordMessage)]
                                                     ["idx" := ParamValue(req.GetParameter("idx"))]
        case EditForm =>
          && command == Some(EditCommand)
          && executed == old(executed) + [Invocation(EditCommand, old(model.attributes)["req" := Req(req)])]
          && model.attributes == old(model.attributes)["req" := Req(req)] + writes
        case Deleted =>
          && command == Some(DeleteActionCommand)
          && executed == old(executed) + [Invocation(DeleteActionCommand, old(model.attributes)["req" := Req(req)])]
          && model.attributes == (old(model.attributes)["req" := Req(req)] + writes)
                                   ["nowPage" := ParamValue(req.GetParameter("nowPage"))]
        case NoMode =>
          executed == old(executed) && command == old(command) && model.attributes == old(model.attributes)
    {
      view := None;
      var mode := req.GetParameter("mode");
      var idx := req.GetParameter("idx");
      if rowExist <= 0 {
        model.AddAttribute("isCorrMsg", Text(IncorrectPasswordMessage));
        model.AddAttribute("idx", ParamValue(idx));
        view := Some("07Board/password");
      } else {
        if mode.value == "edit" {
          model.AddAttribute("req", Req(req));
          Run(EditCommand, model, writes);
          view := Some("07Board/edit");
        } else if mode.value == "delete" {
          model.AddAttribute("req", Req(req));
          Run(DeleteActionCommand, model, writes);
          model.AddAttribute("nowPage", ParamValue(req.GetParameter("nowPage")));
          view := Some("redirect:list.do");
        }
      }
    }

    /** "/board/editAction.do": EditActionCommand stores the edited form, then the post is shown again. */
    method EditAction(req: Request, model: Model, form: BbsPost, writes: map<string, Value>)
      returns (view: string)
      modifies this, model
      ensures view == "redirect:view.do"
      ensures command == Some(EditActionCommand)
      ensures executed == old(executed) +
        [Invocation(EditActionCommand, old(model.attributes)["req" := Req(req)]["springBbsDTO" := Row(form)])]
      ensures model.attributes ==
        (old(model.attributes)["req" := Req(req)]["springBbsDTO" := Row(form)] + writes)
          ["idx" := ParamValue(req.GetParameter("idx"))]["nowPage" := ParamValue(req.GetParameter("nowPage"))]
    {
      model.AddAttribute("req", Req(req));
      model.AddAttribute("springBbsDTO", Row(form));
      Run(EditActionCommand, model, writes);
      model.AddAttribute("idx", ParamValue(req.GetParameter("idx")));
      model.AddAttribute("nowPage", ParamValue(req.GetParameter("nowPage")));
      view := "redirect:view.do";
    }
  }

  /**
   * The controller is a singleton, so one `command` field serves every request.
   * Request B is "/board/view.do", and it has passed no password check. Request
   * A is "/board/passwordAction.do" with a matching password and mode "delete".
   * If A's assignment (line 169) falls between B's assignment (112) and B's
   * `execute` (113), B runs DeleteActionCommand on B's own model.
   */
  method SharedFieldInterleaving(viewReq: Request, deleteReq: Request) returns (run: Invocation)
    ensures run.command == DeleteActionCommand
    ensures run.model == map["req" := Req(viewReq)]
  {
    var shared := new BbsController();
    var modelB := new Model();
    var modelA := new Model();
    modelB.AddAttribute("req", Req(viewReq));      // B, line 111
    shared.Assign(ViewCommand);                    // B, line 112
    modelA.AddAttribute("req", Req(deleteReq));    // A, line 168
    shared.Assign(DeleteActionCommand);            // A, line 169
    shared.ExecuteCurrent(modelB, map[]);          // B, line 113
    run := shared.executed[0];
  }

  /**
   * The same interleaving with the command held per request (a controller
   * object, or a local variable, for each request): A's assignment cannot
   * reach B, and B runs the ViewCommand it assigned, on its own model.
   */
  method RequestScopedInterleaving(viewReq: Request, deleteReq: Request, contents: string)
    returns (run: Invocation, shown: string)
    ensures run.command == ViewCommand
    ensures run.model == map["req" := Req(viewReq)]
    ensures shown == Crlf.ReplaceCrlf(contents)
  {
    var forB := new BbsController();
    var forA := new BbsController();
    var modelB := new Model();
    var modelA := new Model();
    var row := new BbsPost(0, "", "", contents, "", "", 0);
    modelB.AddAttribute("req", Req(viewReq));      // B, line 111
    forB.Assign(ViewCommand);                      // B, line 112
    modelA.AddAttribute("req", Req(deleteReq));    // A, line 168
    forA.Assign(DeleteActionCommand);              // A, line 169
    forB.ExecuteCurrentView(modelB, row);          // B, line 113
    run := forB.executed[0];
    shown := row.contents;
  }
}
