/** The two checks `parse_pdf` makes on the fetched PDF, in this order. */
module Validation {
  import opened Base

  /** `MAX_FILE_SIZE_IN_MB`. */
  const MaxFileSizeInMb: int := 20

  /** A megabyte as `is_file_too_large` counts it: 1024 * 1024 bytes. */
  const BytesPerMb: int := 1024 * 1024

  /**
   * `is_file_too_large`: the size in megabytes, computed by true division, is
   * compared with the ceiling. The division is exact, so the check is the same
   * as comparing the byte count with 20 MiB: a file of exactly 20 MiB passes.
   */
  function IsFileTooLarge(content: seq<byte>): (r: bool)
    ensures r <==> |content| > 20971520
  {
    var sizeInMb := (|content| as real) / (BytesPerMb as real);
    sizeInMb > MaxFileSizeInMb as real
  }

  /** `is_pdf_empty`. */
  function IsPdfEmpty(file: seq<byte>): (r: bool)
    ensures r <==> file == []
  {
    |file| == 0
  }

  /** Every file is either too large, empty, or of a size the service accepts. */
  lemma SizeClasses(content: seq<byte>)
    ensures IsFileTooLarge(content) ==> !IsPdfEmpty(content)
    ensures !IsFileTooLarge(content) && !IsPdfEmpty(content) <==> 1 <= |content| <= MaxFileSizeInMb * BytesPerMb
  {
  }
}
