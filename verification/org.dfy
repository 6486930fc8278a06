/**
 * The growing list of Org-mode lines that `convert_latex_to_org` builds and
 * hands, by reference, to `process_header` and `add_closing_heading_if_needed`.
 */
module Org {
  class OrgOutput {
    var lines: seq<string>

    constructor ()
      ensures lines == []
    {
      lines := [];
    }

    /** `org_output.append(line)`. */
    method Append(line: string)
      modifies this
      ensures lines == old(lines) + [line]
    {
      lines := lines + [line];
    }

    /** `org_output.extend(more)`. */
    method Extend(more: seq<string>)
      modifies this
      ensures lines == old(lines) + more
    {
      lines := lines + more;
    }
  }
}
