/** The upload policy of backend/config/multer.js: only images and videos,
    at most one file, at most 10 MiB. Storage in memory and the way multer
    reports a limit it enforces belong to multer itself. */
module UploadFilter {
  import opened Common

  /** The answer `fileFilter` gives its callback: accept, or an error and
      `false`. */
  datatype FilterDecision = Accept | Reject(message: string)

  const RejectMessage: string := "Not an image or video! Please upload only images or videos."

  /** Lines 8-15: the mimetype must start with "image/" or "video/", compared
      exactly (so "IMAGE/PNG" is refused). */
  function FileFilter(mimetype: string): (d: FilterDecision)
    ensures d.Accept? <==> StartsWith(mimetype, "image/") || StartsWith(mimetype, "video/")
    ensures d.Reject? ==> d.message == RejectMessage
  {
    if StartsWith(mimetype, "image/") || StartsWith(mimetype, "video/") then Accept
    else Reject(RejectMessage)
  }

  /** Line 19: `fileSize`, in bytes. */
  const MaxFileSize: nat := 10 * 1024 * 1024

  /** Line 20: `files`. */
  const MaxFiles: nat := 1

  /** An upload request the limits let through: with at most one file
      allowed, that is no file at all, or a single file of at most 10485760
      bytes. */
  function WithinLimits(fileSizes: seq<nat>): (ok: bool)
    ensures ok <==> fileSizes == [] || (|fileSizes| == 1 && fileSizes[0] <= 10485760)
  {
    |fileSizes| <= MaxFiles && forall k :: 0 <= k < |fileSizes| ==> fileSizes[k] <= MaxFileSize
  }

  /** Every image and video type is accepted, whatever follows the slash, and
      the check is case-sensitive. */
  lemma {:induction false} FilterExamples(subtype: string)
    ensures FileFilter("image/" + subtype).Accept?
    ensures FileFilter("video/" + subtype).Accept?
    ensures FileFilter("IMAGE/png").Reject?
    ensures FileFilter("application/pdf").Reject?
    ensures FileFilter("image").Reject?
  {
    assert ("image/" + subtype)[..6] == "image/";
    assert ("video/" + subtype)[..6] == "video/";
    assert "IMAGE/png"[0] != "image/"[0] && "IMAGE/png"[0] != "video/"[0];
    assert "application/pdf"[0] != "image/"[0] && "application/pdf"[0] != "video/"[0];
  }

  /** The limits admit one file of exactly 10485760 bytes and refuse a byte
      more, or a second file. */
  lemma LimitBoundaries()
    ensures WithinLimits([10485760]) && !WithinLimits([10485761])
    ensures !WithinLimits([1, 1]) && WithinLimits([])
  {
    assert [10485761][0] == 10485761;
  }
}
