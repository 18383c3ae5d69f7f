/** The editable surface of a policy document. */
module Policy {
  import opened Text
  import opened Json

  datatype NamedList = NamedList(name: string, values: seq<string>)

  datatype HostEntry = HostEntry(name: string, cidr: string)

  datatype AclRule = AclRule(action: string, src: seq<string>, dst: seq<string>, raw: Option<Members>)

  datatype SshRule = SshRule(action: string, src: seq<string>, dst: seq<string>, users: seq<string>,
                             raw: Option<Members>)

  datatype NodeAttrEntry = NodeAttrEntry(target: seq<string>, attr: seq<string>,
                                         app: Option<Members>, raw: Option<Members>)

  datatype GrantEntry = GrantEntry(src: seq<string>, dst: seq<string>, ip: seq<string>, via: seq<string>,
                                   app: Option<Members>, raw: Option<Members>)

  datatype AutoApprovers = AutoApprovers(routes: seq<NamedList>, exitNode: seq<string>)

  datatype PolicyModel = PolicyModel(
    groups: seq<NamedList>,
    tagOwners: seq<NamedList>,
    hosts: seq<HostEntry>,
    acls: seq<AclRule>,
    ssh: seq<SshRule>,
    nodeAttrs: seq<NodeAttrEntry>,
    grants: seq<GrantEntry>,
    autoApprovers: AutoApprovers)
}
