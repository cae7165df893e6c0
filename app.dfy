/** The two handlers src/App.mjs installs: the body `click` handler that
    turns anchor clicks into Router calls, and the `load` handler that starts
    the Router behind the authentication gate. The Router and the
    AuthManager are seen only through the calls made on them; what their
    calls return is given as a parameter. */
module App {
  import opened Js

  /** The clicked element: its tag name, the names in its `dataset`, and its
      `href` attribute (`None` when absent, as `getAttribute` gives `null`). */
  datatype Element = Element(tagName: string, dataset: set<string>, href: Option<string>)

  datatype RouterCall = Back | Navigate(href: Option<string>, pushHistory: bool)

  datatype BootCall = AuthStart | AuthValidate | RouterStart

  /** The Router calls one click makes, `backSucceeds` being what
      `Router.back()` returns if it is called. */
  method OnClick(target: Element, backSucceeds: bool) returns (calls: seq<RouterCall>)
    ensures target.tagName != "A" ==> calls == []
    ensures target.tagName == "A" && "goback" in target.dataset ==>
              calls == [Back] + (if backSucceeds then [] else [Navigate(target.href, true)])
    ensures target.tagName == "A" && "goback" !in target.dataset ==>
              calls == [Navigate(target.href, false)]
    ensures Back in calls <==> target.tagName == "A" && "goback" in target.dataset
    ensures |calls| <= 2
  {
    calls := [];
    if target.tagName == "A" {
      var didGoBack := true;
      if "goback" in target.dataset {
        didGoBack := backSucceeds;
        calls := calls + [Back];
        if didGoBack {
          return;
        }
      }
      calls := calls + [Navigate(target.href, !didGoBack)];
    }
  }

  /** The calls the `load` handler makes: `startCompletes` is whether
      `AuthManager.start()` resolves, `sessionValid` whether `validate()`
      resolves to true. */
  method OnLoad(startCompletes: bool, sessionValid: bool) returns (calls: seq<BootCall>)
    ensures |calls| >= 1 && calls[0] == AuthStart
    ensures AuthValidate in calls <==> startCompletes
    ensures RouterStart in calls <==> startCompletes && sessionValid
    ensures RouterStart in calls ==> calls == [AuthStart, AuthValidate, RouterStart]
    ensures !startCompletes ==> calls == [AuthStart]
    ensures startCompletes && !sessionValid ==> calls == [AuthStart, AuthValidate]
  {
    calls := [AuthStart];
    if !startCompletes {
      return;
    }
    calls := calls + [AuthValidate];
    if sessionValid {
      calls := calls + [RouterStart];
    }
  }
}
