/** Controller dependency resolution (`RoutingService::getController`).
    Reflection is replaced by `classes`, which maps every class that exists to
    the class names of its constructor parameters in declared order; the
    container is a finite map from class name to service. */
module Resolver {
  import opened Types

  function UnknownController(name: ClassName): Throwable
  {
    Throwable(BadRequest, "Controller does not exist: " + name)
  }

  function MissingService(className: ClassName): Throwable
  {
    Throwable(RuntimeError, "Parameter or service not found: " + className)
  }

  /** The position of the first parameter class the container does not have,
      or |params| when it has them all. */
  function FirstMissing(params: seq<ClassName>, container: map<ClassName, Service>): (k: nat)
    ensures k <= |params|
    ensures forall j :: 0 <= j < k ==> params[j] in container
    ensures k < |params| ==> params[k] !in container
  {
    if params == [] || params[0] !in container then 0
    else 1 + FirstMissing(params[1..], container)
  }

  /** What `getController` returns or throws. */
  function Resolve(name: ClassName, classes: map<ClassName, seq<ClassName>>,
                   container: map<ClassName, Service>): (r: Result<Controller>)
    ensures name !in classes ==> r == Err(UnknownController(name))
    ensures name in classes ==>
      (r.Ok? <==> forall j :: 0 <= j < |classes[name]| ==> classes[name][j] in container)
    ensures r.Ok? ==>
      && name in classes
      && r.value.className == name
      && |r.value.arguments| == |classes[name]|
      && forall j :: 0 <= j < |classes[name]| ==> r.value.arguments[j] == container[classes[name][j]]
    ensures name in classes && r.Err? ==>
      exists k :: 0 <= k < |classes[name]|
        && classes[name][k] !in container
        && (forall j :: 0 <= j < k ==> classes[name][j] in container)
        && r.error == MissingService(classes[name][k])
  {
    if name !in classes then Err(UnknownController(name))
    else
      var params := classes[name];
      var k := FirstMissing(params, container);
      if k < |params| then Err(MissingService(params[k]))
      else Ok(Controller(name, seq(|params|, j requires 0 <= j < |params| && params[j] in container => container[params[j]])))
  }

  /** `getController`: walks the constructor parameters in declared order,
      asking the container for each (`probed` lists the names passed to
      `has`, in order), and constructs the controller only after a full pass. */
  method GetController(name: ClassName, classes: map<ClassName, seq<ClassName>>,
                       container: map<ClassName, Service>)
    returns (r: Result<Controller>, probed: seq<ClassName>)
    ensures r == Resolve(name, classes, container)
    ensures name !in classes ==> probed == []
    ensures name in classes && r.Ok? ==> probed == classes[name]
    ensures name in classes && r.Err? ==>
      && 0 < |probed| <= |classes[name]|
      && probed == classes[name][..|probed|]
      && |probed| == FirstMissing(classes[name], container) + 1
      && (forall j :: 0 <= j < |probed| - 1 ==> probed[j] in container)
      && probed[|probed| - 1] !in container
      && r.error == MissingService(probed[|probed| - 1])
  {
    if name !in classes {
      return Err(UnknownController(name)), [];
    }
    var params := classes[name];
    var arguments: seq<Service> := [];
    probed := [];
    for i := 0 to |params|
      invariant probed == params[..i]
      invariant forall j :: 0 <= j < i ==> params[j] in container
      invariant |arguments| == i
      invariant forall j :: 0 <= j < i ==> arguments[j] == container[params[j]]
    {
      var className := params[i];
      probed := probed + [className];
      if className !in container {
        return Err(MissingService(className)), probed;
      }
      arguments := arguments + [container[className]];
    }
    assert probed == params;
    assert arguments == Resolve(name, classes, container).value.arguments;
    r := Ok(Controller(name, arguments));
  }
}
