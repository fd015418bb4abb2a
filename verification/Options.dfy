/** The values the select control works with: options, their values, and the
    selection, which the source types as `Option | Option[] | null`. */
module Options {

  /** `string | number`, compared with `===`: a string never equals a number. */
  datatype Value = Str(s: string) | Num(n: int)

  /** One selectable item; `caption` is the source's `label` (a keyword in Dafny). */
  datatype Option = Option(caption: string, value: Value)

  /** The selection state: nothing, one option, or an array of options. The shape is
      independent of the `multiple` flag: a single default value in multiple mode
      stays a single option until the first click. */
  datatype Selection = Null | One(option: Option) | Many(items: seq<Option>)

  /** An optional property (`undefined` when absent). */
  datatype Maybe<T> = Absent | Given(value: T)

  /** `x ?? d`. */
  function OrElse<T>(m: Maybe<T>, d: T): T {
    match m
    case Absent => d
    case Given(x) => x
  }
}
