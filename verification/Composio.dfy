/** What one executed action answers. */
module Composio {
  import opened Base
  import opened Json

  datatype Response = Response(
    data: Json, successful: bool, error: Option<string>, costUsd: real, markdownFormatted: Option<string>)
}
