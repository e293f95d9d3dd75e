/** The keyword options `vicuna_chat` passes when it loads the model, chosen from the device
    name and the number of GPUs, and whether the loaded model is then moved to the device. */
module DevicePlacement {
  import opened Results

  /** `torch.float16`, the only tensor type the options name. */
  datatype Dtype = Float16

  /** A value in the options dictionary. */
  datatype KwValue =
    | DtypeValue(dtype: Dtype)
    | StrValue(text: string)
    | MemoryValue(limits: map<int, string>)

  /** The `num_gpus` argument: the text `"auto"`, or a string that `int()` turns into `n`, or a
      string `int()` rejects. */
  datatype GpuArg = AutoGpus | GpuCount(n: int) | Unparsable

  /** The options for `from_pretrained`, and whether `model.to(device)` follows. */
  datatype Placement = Placement(kwargs: map<string, KwValue>, moveToDevice: bool)

  /** The per-GPU memory cap. */
  const GpuMemory: string := "13GiB"

  /** `{i: "13GiB" for i in range(n)}`. */
  function MaxMemory(n: int): (limits: map<int, string>)
    ensures forall i :: i in limits <==> 0 <= i < n
    ensures forall i :: i in limits ==> limits[i] == GpuMemory
    decreases if n < 0 then 0 else n
  {
    if n <= 0 then map[] else MaxMemory(n - 1)[n - 1 := GpuMemory]
  }

  /** One entry per GPU: `range(n)` is empty when `n` is not positive. */
  lemma {:induction false} MaxMemorySize(n: int)
    ensures |MaxMemory(n)| == if n < 0 then 0 else n
    decreases if n < 0 then 0 else n
  {
    if n > 0 {
      MaxMemorySize(n - 1);
      assert n - 1 !in MaxMemory(n - 1);
      assert MaxMemory(n).Keys == MaxMemory(n - 1).Keys + {n - 1};
    } else {
      assert MaxMemory(n).Keys == {};
    }
  }

  /** The options by case: `"cpu"` gets none; `"cuda"` gets half precision, plus automatic
      placement when the count is `"auto"`, plus automatic placement and a memory cap per GPU when
      the count is not one; a count string `int()` rejects is a `ValueError`; any other device leaves
      `kwargs` unbound. */
  function Options(device: string, gpus: GpuArg): (r: Result<Placement>)
    ensures device == "cpu" ==> r == Ok(Placement(map[], false))
    ensures device != "cpu" && device != "cuda" ==> r == Err(UnboundLocalError("kwargs"))
    ensures device == "cuda" && r.Ok? ==>
      "torch_dtype" in r.value.kwargs && r.value.kwargs["torch_dtype"] == DtypeValue(Float16)
    ensures device == "cuda" && r.Ok? ==>
      r.value.kwargs.Keys <= {"torch_dtype", "device_map", "max_memory"} &&
      ("device_map" in r.value.kwargs ==> r.value.kwargs["device_map"] == StrValue("auto"))
    ensures device == "cuda" && r.Err? ==> gpus == Unparsable && r.error == ValueError
  {
    var half := map["torch_dtype" := DtypeValue(Float16)];
    var move := device == "cuda" && gpus == GpuCount(1);
    if device == "cpu" then
      Ok(Placement(map[], move))
    else if device != "cuda" then
      Err(UnboundLocalError("kwargs"))
    else
      match gpus
      case AutoGpus => Ok(Placement(half["device_map" := StrValue("auto")], move))
      case Unparsable => Err(ValueError)
      case GpuCount(n) =>
        if n == 1 then Ok(Placement(half, move))
        else Ok(Placement(half["device_map" := StrValue("auto")]["max_memory" := MemoryValue(MaxMemory(n))], move))
  }

  /** Builds the options dictionary step by step, as the source does with item assignment and
      `update`. */
  method SelectPlacement(device: string, gpus: GpuArg) returns (r: Result<Placement>)
    ensures r == Options(device, gpus)
  {
    var kwargs: map<string, KwValue>;
    if device == "cpu" {
      kwargs := map[];
    } else if device == "cuda" {
      kwargs := map["torch_dtype" := DtypeValue(Float16)];
      match gpus {
        case AutoGpus =>
          kwargs := kwargs["device_map" := StrValue("auto")];
        case Unparsable =>
          return Err(ValueError);
        case GpuCount(n) =>
          if n != 1 {
            var half := kwargs;
            kwargs := kwargs + map["device_map" := StrValue("auto"), "max_memory" := MemoryValue(MaxMemory(n))];
            assert kwargs == half["device_map" := StrValue("auto")]["max_memory" := MemoryValue(MaxMemory(n))];
          }
      }
    } else {
      return Err(UnboundLocalError("kwargs"));
    }
    var move := device == "cuda" && gpus == GpuCount(1);
    r := Ok(Placement(kwargs, move));
  }

  /** Only `"cpu"` and `"cuda"` are accepted, and `"cuda"` only with a count string `int()` can
      read. */
  lemma OptionsFailures(device: string, gpus: GpuArg)
    ensures Options(device, gpus).Err? <==> (device != "cpu" && device != "cuda") || (device == "cuda" && gpus == Unparsable)
    ensures Options(device, gpus) == Err(ValueError) <==> device == "cuda" && gpus == Unparsable
  {
  }

  /** The model is moved to the GPU exactly when the device is `"cuda"` and the count is one;
      then no automatic placement is requested, and otherwise, on CUDA, `device_map="auto"` always
      is; a single GPU gets half precision and nothing else. */
  lemma MoveExcludesDeviceMap(device: string, gpus: GpuArg)
    requires Options(device, gpus).Ok?
    ensures var p := Options(device, gpus).value;
      (p.moveToDevice <==> device == "cuda" && gpus == GpuCount(1)) &&
      (device == "cuda" ==> ("device_map" in p.kwargs <==> !p.moveToDevice)) &&
      (device == "cuda" && !p.moveToDevice ==> p.kwargs["device_map"] == StrValue("auto")) &&
      (p.moveToDevice ==> p.kwargs == map["torch_dtype" := DtypeValue(Float16)]) &&
      (device == "cpu" ==> p.kwargs == map[])
  {
  }

  /** A memory cap is requested exactly for an explicit GPU count other than one, and it caps
      GPUs `0..n-1` at 13GiB each and no others. */
  lemma MemoryCapPerGpu(device: string, gpus: GpuArg)
    requires Options(device, gpus).Ok?
    ensures var p := Options(device, gpus).value;
      ("max_memory" in p.kwargs <==> device == "cuda" && gpus.GpuCount? && gpus.n != 1) &&
      ("max_memory" in p.kwargs ==>
        (p.kwargs["max_memory"] == MemoryValue(MaxMemory(gpus.n)) &&
         |MaxMemory(gpus.n)| == (if gpus.n < 0 then 0 else gpus.n)))
  {
    if device == "cuda" && gpus.GpuCount? {
      MaxMemorySize(gpus.n);
    }
  }
}
