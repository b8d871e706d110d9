/** The generator's fixed names: flag bits, generated file names and the two marker import paths. */
module Enum {
  const BeanFlag: bv8 := 1
  const MvcFlag: bv8 := 2

  const BeanInitFile := "gp_bean_init.go"
  const ApiDefFile := "gp_api.def"

  const BeanImportPath := "github.com/archine/gin-plus/v4/ioc"
  const MvcImportPath := "github.com/archine/gin-plus/v4/mvc"
}
