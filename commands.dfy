/**
 * The command package: the command classes the controller instantiates, and
 * the one whose code is part of this model, ViewCommand.
 */
module Commands {
  import opened Mvc
  import Crlf

  /** The command classes; each is created by the controller, run once, then dropped. */
  datatype Command =
    | ListCommand
    | ViewCommand
    | WriteActionCommand
    | EditCommand
    | EditActionCommand
    | DeleteActionCommand

  /** The request the handler stored under "req"; the command reads its parameters from it. */
  predicate HasRequest(attributes: map<string, Value>) {
    "req" in attributes && attributes["req"].Req?
  }

  /**
   * `ViewCommand.execute(model)`. `row` is the object the board's DAO returned
   * for the request's "idx" parameter. Its contents are normalised for display
   * in place (its other fields keep the values the DAO gave them: only
   * `row.contents` is in the frame), and the model gains "viewRow", the row,
   * and "nowPage", the request's parameter or null.
   */
  method ExecuteView(model: Model, row: BbsPost)
    requires HasRequest(model.attributes)
    modifies model, row`contents
    ensures row.contents == Crlf.ReplaceCrlf(old(row.contents))
    ensures !Crlf.HasCrlf(row.contents)
    ensures model.attributes ==
      old(model.attributes)["viewRow" := Row(row)]
                           ["nowPage" := ParamValue(old(model.attributes)["req"].request.GetParameter("nowPage"))]
    ensures model.attributes.Keys == old(model.attributes).Keys + {"viewRow", "nowPage"}
  {
    var req := model.attributes["req"].request;
    var nowPage := req.GetParameter("nowPage");
    row.SetContents(Crlf.ReplaceCrlf(row.contents));
    Crlf.NoCrlfAfterReplace(old(row.contents));
    model.AddAttribute("viewRow", Row(row));
    model.AddAttribute("nowPage", ParamValue(nowPage));
  }
}
