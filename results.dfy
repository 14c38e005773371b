/** Outcomes of the aggregation run: the error kinds the program reports and the
    result and option types the stages pass along. */
module Results {

  /** A value that may be absent; a missing branch definition file is `None`. */
  datatype Option<T> = None | Some(value: T)

  /** One constructor per diagnostic the program prints; in the model each one
      ends the run. */
  datatype Error =
    | BranchFileNotFound                   // FILE_NOT_EXIST
    | BranchFileInvalidFormat              // FILE_INVALID_FORMAT
    | SalesFilesNotSequential              // FILE_NOT_SEQUENTIAL
    | SalesFileInvalidFormat(fileName: string)  // file name + THIS_FILE_INVALID_FORMAT
    | SalesFileInvalidCode(fileName: string)    // file name + THIS_FILE_INVALID_CODE
    | TotalTooLarge                        // TOO_MANY_ZEROES
    | UnknownError                         // UNKNOWN_ERROR

  /** Either the value a stage produced or the error that stopped the run. */
  datatype Result<T> = Ok(value: T) | Err(error: Error)

  /** The line the program prints to the console for each error. */
  function Message(e: Error): string
  {
    match e
    case BranchFileNotFound => "支店定義ファイルが存在しません"
    case BranchFileInvalidFormat => "支店定義ファイルのフォーマットが不正です"
    case SalesFilesNotSequential => "売上ファイル名が連番になっていません"
    case SalesFileInvalidFormat(name) => name + "のフォーマットが不正です"
    case SalesFileInvalidCode(name) => name + "の支店コードが不正です"
    case TotalTooLarge => "合計金額が10桁を超えました"
    case UnknownError => "予期せぬエラーが発生しました"
  }
}
