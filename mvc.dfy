/**
 * The values the board's handlers and commands pass around: the servlet
 * request (only its parameters), the board row bean, and the Spring model,
 * a string-keyed attribute bag that handlers and commands add to in place.
 */
module Mvc {

  datatype Option<+T> = None | Some(value: T)

  /** An HTTP request, reduced to the parameters it carries. */
  datatype Request = Request(parameters: map<string, string>) {

    /** `getParameter(name)`: the parameter's value, or `None` (Java's null) when it was not sent. */
    function GetParameter(name: string): (r: Option<string>)
      ensures r.Some? <==> name in parameters
      ensures r.Some? ==> r.value == parameters[name]
    {
      if name in parameters then Some(parameters[name]) else None
    }
  }

  /**
   * One board row (the bean `SpringBbsDTO`). Its fields are changed in place
   * through setters, so it is an object.
   */
  class BbsPost {
    var id: int
    var title: string
    var writer: string
    var contents: string
    var password: string
    var registeredAt: string
    var hit: int

    constructor (id: int, title: string, writer: string, contents: string,
                 password: string, registeredAt: string, hit: int)
      ensures this.id == id && this.title == title && this.writer == writer
      ensures this.contents == contents && this.password == password
      ensures this.registeredAt == registeredAt && this.hit == hit
    {
      this.id := id;
      this.title := title;
      this.writer := writer;
      this.contents := contents;
      this.password := password;
      this.registeredAt := registeredAt;
      this.hit := hit;
    }

    /** `setContents`: only the contents change. */
    method SetContents(contents: string)
      modifies this`contents
      ensures this.contents == contents
    {
      this.contents := contents;
    }
  }

  /** What an attribute of the model can hold. */
  datatype Value =
    | Null
    | Text(text: string)
    | Req(request: Request)
    | Row(post: BbsPost)

  /** A request parameter stored as an attribute: the string, or null when it is absent. */
  function ParamValue(p: Option<string>): (v: Value)
    ensures v.Null? <==> p.None?
    ensures v.Text? ==> v.text == p.value
  {
    match p
    case None => Null
    case Some(s) => Text(s)
  }

  /** Spring's `Model`: named attributes, added one at a time; adding a name again replaces its value. */
  class Model {
    var attributes: map<string, Value>

    constructor ()
      ensures attributes == map[]
    {
      attributes := map[];
    }

    /** `addAttribute(name, value)`. */
    method AddAttribute(name: string, value: Value)
      modifies this
      ensures attributes == old(attributes)[name := value]
    {
      attributes := attributes[name := value];
    }
  }
}
